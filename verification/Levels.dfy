/** Log levels and the buckets they are grouped into. */
module Levels {
  import opened Text

  /** The raw levels of a bucket; none for a name that is no bucket. */
  function BucketLevels(bucket: string): seq<string> {
    match bucket
    case "emergency" => ["EMERGENCY", "ALERT", "CRITICAL", "CRIT", "FATAL", "PANIC"]
    case "error" => ["ERROR", "ERR"]
    case "warn" => ["WARN", "WARNING"]
    case "notice" => ["NOTICE"]
    case "info" => ["INFO"]
    case "debug" => ["DEBUG", "TRACE"]
    case _ => []
  }

  /** The bucket a name stands for, itself or its alias. */
  function BucketName(name: string): string {
    if Lower(name) == "warning" then "warn" else Lower(name)
  }

  function LevelsForBucket(name: string): seq<string> {
    BucketLevels(BucketName(name))
  }

  predicate IsCatchAllLevel(name: string) {
    Lower(name) in ["ok", "success", "unknown"]
  }

  /** The buckets that list levels, most severe first. */
  const NAMED_BUCKETS: seq<string> := ["emergency", "error", "warn", "notice", "info", "debug"]

  /** All buckets; "ok" catches every level outside the others. */
  const LEVEL_BUCKETS: seq<string> := NAMED_BUCKETS + ["ok"]

  /** The levels of every named bucket, in the order SQL lists them. */
  const BUCKETED_LEVELS: seq<string> :=
    ["ALERT", "CRIT", "CRITICAL", "DEBUG", "EMERGENCY", "ERR", "ERROR", "FATAL", "INFO", "NOTICE",
     "PANIC", "TRACE", "WARN", "WARNING"]

  /** The bucket of an upper-case level. */
  function BucketOfUpper(level: string): string {
    match level
    case "EMERGENCY" => "emergency"
    case "ALERT" => "emergency"
    case "CRITICAL" => "emergency"
    case "CRIT" => "emergency"
    case "FATAL" => "emergency"
    case "PANIC" => "emergency"
    case "ERROR" => "error"
    case "ERR" => "error"
    case "WARN" => "warn"
    case "WARNING" => "warn"
    case "NOTICE" => "notice"
    case "INFO" => "info"
    case "DEBUG" => "debug"
    case "TRACE" => "debug"
    case _ => "ok"
  }

  /** The bucket of a raw level. */
  function LevelBucket(level: string): string {
    BucketOfUpper(Upper(level))
  }

  /** Every level is in exactly one bucket: a bucket lists a level exactly when
      it is the level's bucket. */
  lemma BucketsPartition(level: string, bucket: string)
    ensures bucket in NAMED_BUCKETS ==> (level in BucketLevels(bucket) <==> BucketOfUpper(level) == bucket)
    ensures level in BUCKETED_LEVELS <==> BucketOfUpper(level) != "ok"
    ensures BucketLevels(bucket) != [] <==> bucket in NAMED_BUCKETS
    ensures BucketOfUpper(level) in LEVEL_BUCKETS
  {
  }
}
