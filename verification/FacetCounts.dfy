/** Facet counts: what the checked boxes add up to. */
module FacetCounts {
  import opened Wrappers
  import opened Syntax
  import opened Levels
  import opened Rewrite
  import opened Semantics
  import opened SelectionMeaning
  import opened Facets
  import opened FacetRows
  import opened Readings
  import opened Where
  import opened Sequences
  import opened Names
  import opened Removal
  import Text

  /** One row of a grouped count. */
  datatype Group<K> = Group(value: K, count: nat)

  function Tally<K(==)>(keys: seq<K>, key: K): nat {
    if keys == [] then 0 else (if keys[0] == key then 1 else 0) + Tally(keys[1..], key)
  }

  function CountPicked<K>(keys: seq<K>, pick: K -> bool): nat {
    if keys == [] then 0 else (if pick(keys[0]) then 1 else 0) + CountPicked(keys[1..], pick)
  }

  function SumPicked<K>(groups: seq<Group<K>>, pick: K -> bool): nat {
    if groups == [] then 0
    else (if pick(groups[0].value) then groups[0].count else 0) + SumPicked(groups[1..], pick)
  }

  /** What GROUP BY returns for the rows' keys: each key once, with how often it
      occurs. */
  ghost predicate Grouped<K>(keys: seq<K>, groups: seq<Group<K>>) {
    && (forall i, j :: 0 <= i < j < |groups| ==> groups[i].value != groups[j].value)
    && (forall i :: 0 <= i < |groups| ==> groups[i].count == Tally(keys, groups[i].value))
    && (forall k :: k in keys ==> exists i :: 0 <= i < |groups| && groups[i].value == k)
  }

  function SumTally<K(==)>(values: seq<K>, keys: seq<K>, pick: K -> bool): nat {
    if values == [] then 0
    else (if pick(values[0]) then Tally(keys, values[0]) else 0) + SumTally(values[1..], keys, pick)
  }

  /** One more key adds one to the sum when it is picked. */
  lemma {:induction false} OneMoreKey<K(!new)>(values: seq<K>, keys: seq<K>, pick: K -> bool)
    requires NoRepeats(values) && keys != []
    ensures SumTally(values, keys, pick) ==
            SumTally(values, keys[1..], pick) + if keys[0] in values && pick(keys[0]) then 1 else 0
  {
    if values != [] {
      assert NoRepeats(values[1..]);
      OneMoreKey(values[1..], keys, pick);
      assert keys[0] in values <==> keys[0] == values[0] || keys[0] in values[1..];
      assert values[0] !in values[1..];
    }
  }

  lemma {:induction false} SumTallyCounts<K(!new)>(values: seq<K>, keys: seq<K>, pick: K -> bool)
    requires NoRepeats(values) && forall k :: k in keys ==> k in values
    ensures SumTally(values, keys, pick) == CountPicked(keys, pick)
  {
    if keys == [] {
      NoKeys(values, pick);
    } else {
      OneMoreKey(values, keys, pick);
      assert keys[0] in keys;
      SumTallyCounts(values, keys[1..], pick);
    }
  }

  lemma {:induction false} NoKeys<K(!new)>(values: seq<K>, pick: K -> bool)
    ensures SumTally(values, [], pick) == 0
  {
    if values != [] {
      NoKeys(values[1..], pick);
    }
  }

  function Values<K>(groups: seq<Group<K>>): seq<K> {
    seq(|groups|, i requires 0 <= i < |groups| => groups[i].value)
  }

  lemma {:induction false} SumPickedIsTally<K(!new)>(groups: seq<Group<K>>, keys: seq<K>, pick: K -> bool)
    requires forall i :: 0 <= i < |groups| ==> groups[i].count == Tally(keys, groups[i].value)
    ensures SumPicked(groups, pick) == SumTally(Values(groups), keys, pick)
  {
    if groups != [] {
      SumPickedIsTally(groups[1..], keys, pick);
      assert Values(groups)[1..] == Values(groups[1..]);
    }
  }

  /** The counts of any choice of groups add up to the rows with such keys. */
  lemma GroupsAddUp<K(!new)>(keys: seq<K>, groups: seq<Group<K>>, pick: K -> bool)
    requires Grouped(keys, groups)
    ensures SumPicked(groups, pick) == CountPicked(keys, pick)
  {
    var values := Values(groups);
    SumPickedIsTally(groups, keys, pick);
    forall k | k in keys
      ensures k in values
    {
      var i :| 0 <= i < |groups| && groups[i].value == k;
      assert values[i] == k;
    }
    SumTallyCounts(values, keys, pick);
  }

  // ----- level buckets

  function InBucket(bucket: string): string -> bool {
    level => BucketOfUpper(level) == bucket
  }

  /** The groups per bucket, in the buckets' order. */
  function BucketGroups(raw: seq<Group<string>>): seq<Group<string>> {
    seq(|LEVEL_BUCKETS|, i requires 0 <= i < |LEVEL_BUCKETS| =>
      Group(LEVEL_BUCKETS[i], SumPicked(raw, InBucket(LEVEL_BUCKETS[i]))))
  }

  lemma {:induction false} SumSnoc<K>(groups: seq<Group<K>>, g: Group<K>, pick: K -> bool)
    ensures SumPicked(groups + [g], pick) == SumPicked(groups, pick) + if pick(g.value) then g.count else 0
  {
    if groups == [] {
      assert groups + [g] == [g] && [g][1..] == [];
    } else {
      assert (groups + [g])[1..] == groups[1..] + [g];
      SumSnoc(groups[1..], g, pick);
    }
  }

  /** Adds the raw levels' counts into their buckets. */
  method CountBuckets(raw: seq<Group<string>>) returns (levels: seq<Group<string>>)
    requires forall i :: 0 <= i < |raw| ==> Text.Upper(raw[i].value) == raw[i].value
    ensures levels == BucketGroups(raw)
  {
    hide BucketOfUpper, LevelBucket, Text.Upper;
    var perBucket: map<string, nat> := map[];
    for i := 0 to |raw|
      invariant forall b :: (if b in perBucket then perBucket[b] else 0) == SumPicked(raw[..i], InBucket(b))
    {
      var bucket := LevelBucket(raw[i].value);
      UpperBucket(raw[i].value);
      forall b
        ensures SumPicked(raw[..i + 1], InBucket(b)) ==
                SumPicked(raw[..i], InBucket(b)) + if InBucket(b)(raw[i].value) then raw[i].count else 0
      {
        SumSnoc(raw[..i], raw[i], InBucket(b));
        assert raw[..i] + [raw[i]] == raw[..i + 1];
      }
      perBucket := perBucket[bucket := (if bucket in perBucket then perBucket[bucket] else 0) + raw[i].count];
    }
    assert raw[..|raw|] == raw;
    levels := [];
    for i := 0 to |LEVEL_BUCKETS|
      invariant |levels| == i
      invariant forall k :: 0 <= k < i ==> levels[k] == BucketGroups(raw)[k]
    {
      var bucket := LEVEL_BUCKETS[i];
      levels := levels + [Group(bucket, if bucket in perBucket then perBucket[bucket] else 0)];
    }
  }

  lemma UpperBucket(level: string)
    requires Text.Upper(level) == level
    ensures LevelBucket(level) == BucketOfUpper(level)
  {
  }

  function Buckets(levels: seq<string>): seq<string> {
    seq(|levels|, i requires 0 <= i < |levels| => BucketOfUpper(levels[i]))
  }

  lemma {:induction false} BucketTally(levels: seq<string>, bucket: string)
    ensures CountPicked(levels, InBucket(bucket)) == Tally(Buckets(levels), bucket)
  {
    hide BucketOfUpper;
    if levels != [] {
      BucketTally(levels[1..], bucket);
      assert Buckets(levels)[1..] == Buckets(levels[1..]);
    }
  }

  /** The bucket groups are what grouping the rows by bucket would return. */
  lemma BucketsGrouped(levels: seq<string>, raw: seq<Group<string>>)
    requires Grouped(levels, raw)
    ensures Grouped(Buckets(levels), BucketGroups(raw))
  {
    hide BucketOfUpper, SumPicked, CountPicked, Tally, Grouped;
    var groups, keys := BucketGroups(raw), Buckets(levels);
    forall i | 0 <= i < |groups|
      ensures groups[i].count == Tally(keys, groups[i].value)
    {
      GroupsAddUp(levels, raw, InBucket(LEVEL_BUCKETS[i]));
      BucketTally(levels, LEVEL_BUCKETS[i]);
    }
    forall k | k in keys
      ensures exists i :: 0 <= i < |groups| && groups[i].value == k
    {
      var j :| 0 <= j < |levels| && keys[j] == k;
      BucketsPartition(levels[j], "");
      var i :| 0 <= i < |LEVEL_BUCKETS| && LEVEL_BUCKETS[i] == k;
      assert groups[i].value == k;
    }
    GroupedFrom(keys, groups);
  }

  lemma GroupedFrom(keys: seq<string>, groups: seq<Group<string>>)
    requires |groups| == |LEVEL_BUCKETS| && forall i :: 0 <= i < |groups| ==> groups[i].value == LEVEL_BUCKETS[i]
    requires forall i :: 0 <= i < |groups| ==> groups[i].count == Tally(keys, groups[i].value)
    requires forall k :: k in keys ==> exists i :: 0 <= i < |groups| && groups[i].value == k
    ensures Grouped(keys, groups)
  {
    hide Tally;
    assert forall i, j :: 0 <= i < j < |LEVEL_BUCKETS| ==> LEVEL_BUCKETS[i] != LEVEL_BUCKETS[j];
  }

  // ----- the facet list

  datatype FacetValue = FacetValue(value: string, count: nat, selected: bool, running: bool)

  function Selector(sel: Selection): string -> bool {
    value => IsSelected(sel, value)
  }

  /** What the checked boxes of a facet add up to. */
  function SumChecked(values: seq<FacetValue>): nat {
    if values == [] then 0 else (if values[0].selected then values[0].count else 0) + SumChecked(values[1..])
  }

  function WithZeros(groups: seq<Group<string>>, names: seq<string>): seq<Group<string>>
    decreases |names|
  {
    if names == [] then groups
    else WithZeros(if names[0] in Values(groups) then groups else groups + [Group(names[0], 0)], names[1..])
  }

  function CountOf(groups: seq<Group<string>>, value: string): nat {
    if groups == [] then 0 else if groups[0].value == value then groups[0].count else CountOf(groups[1..], value)
  }

  /** Names that a facet lists though no row has them: services that run, and
      those the selection names. */
  function ExtraNames(field: string, running: seq<string>, sel: Selection): seq<string> {
    if field != "service" then []
    else running + if sel.mode.SelectInclude? || sel.mode.SelectExclude? then sel.values else []
  }

  /** The values in the order they are shown. */
  function Shown(field: string, values: seq<string>): seq<string> {
    if field == "service" then SortNames(values) else values
  }

  function Boxes(field: string, values: seq<string>, groups: seq<Group<string>>, running: seq<string>, sel: Selection)
      : (r: seq<FacetValue>)
    ensures |r| == |values|
  {
    seq(|values|, i requires 0 <= i < |values| =>
      FacetValue(values[i], CountOf(groups, values[i]), IsSelected(sel, values[i]),
                 field == "service" && values[i] in running))
  }

  /** A facet: each value once, with its count and its box. */
  function Listed(field: string, groups: seq<Group<string>>, running: seq<string>, sel: Selection): seq<FacetValue> {
    var all := WithZeros(groups, ExtraNames(field, running, sel));
    Boxes(field, Shown(field, Values(all)), all, running, sel)
  }

  // ----- the order does not change the sum

  function Checks(values: seq<string>, groups: seq<Group<string>>, sel: Selection): nat {
    if values == [] then 0
    else (if IsSelected(sel, values[0]) then CountOf(groups, values[0]) else 0) + Checks(values[1..], groups, sel)
  }

  lemma {:induction false} BoxesSum(field: string, values: seq<string>, groups: seq<Group<string>>,
                                    running: seq<string>, sel: Selection)
    ensures SumChecked(Boxes(field, values, groups, running, sel)) == Checks(values, groups, sel)
  {
    hide IsSelected, CountOf;
    if values != [] {
      BoxesSum(field, values[1..], groups, running, sel);
      assert Boxes(field, values, groups, running, sel)[1..] == Boxes(field, values[1..], groups, running, sel);
    }
  }

  lemma {:induction false} InsertChecks(name: string, values: seq<string>, groups: seq<Group<string>>, sel: Selection)
    ensures Checks(InsertName(name, values), groups, sel) == Checks([name] + values, groups, sel)
  {
    hide IsSelected, CountOf, AtMost;
    assert ([name] + values)[1..] == values;
    if values != [] && !AtMost(name, values[0]) {
      InsertChecks(name, values[1..], groups, sel);
      assert ([name] + values[1..])[1..] == values[1..];
      assert ([values[0]] + InsertName(name, values[1..]))[1..] == InsertName(name, values[1..]);
    }
  }

  lemma {:induction false} SortChecks(values: seq<string>, groups: seq<Group<string>>, sel: Selection)
    ensures Checks(SortNames(values), groups, sel) == Checks(values, groups, sel)
  {
    hide IsSelected, CountOf;
    if values != [] {
      SortChecks(values[1..], groups, sel);
      InsertChecks(values[0], SortNames(values[1..]), groups, sel);
      assert ([values[0]] + SortNames(values[1..]))[1..] == SortNames(values[1..]);
    }
  }

  /** Looking up counts by value is reading them from the groups. */
  lemma {:induction false} ChecksFrom(groups: seq<Group<string>>, k: nat, sel: Selection)
    requires NoRepeats(Values(groups)) && k <= |groups|
    ensures Checks(Values(groups)[k..], groups, sel) == SumPicked(groups[k..], Selector(sel))
    decreases |groups| - k
  {
    hide IsSelected;
    if k < |groups| {
      ChecksFrom(groups, k + 1, sel);
      CountAt(groups, k);
      assert Values(groups)[k..][1..] == Values(groups)[k + 1..] && groups[k..][1..] == groups[k + 1..];
    }
  }

  lemma {:induction false} CountAt(groups: seq<Group<string>>, k: nat)
    requires NoRepeats(Values(groups)) && k < |groups|
    ensures CountOf(groups, groups[k].value) == groups[k].count
  {
    assert forall i :: 0 <= i < |groups| ==> Values(groups)[i] == groups[i].value;
    if k > 0 {
      assert Values(groups)[1..] == Values(groups[1..]);
      CountAt(groups[1..], k - 1);
    }
  }

  lemma {:induction false} ZerosStayDistinct(groups: seq<Group<string>>, names: seq<string>)
    requires NoRepeats(Values(groups))
    ensures NoRepeats(Values(WithZeros(groups, names)))
    ensures forall v :: v in Values(WithZeros(groups, names)) <==> v in Values(groups) || v in names
    decreases |names|
  {
    if names != [] {
      var next := if names[0] in Values(groups) then groups else groups + [Group(names[0], 0)];
      assert Values(groups + [Group(names[0], 0)]) == Values(groups) + [names[0]];
      ZerosStayDistinct(next, names[1..]);
    }
  }

  lemma {:induction false} ZerosAddNothing(groups: seq<Group<string>>, names: seq<string>, pick: string -> bool)
    ensures SumPicked(WithZeros(groups, names), pick) == SumPicked(groups, pick)
    decreases |names|
  {
    if names != [] {
      SumSnoc(groups, Group(names[0], 0), pick);
      ZerosAddNothing(if names[0] in Values(groups) then groups else groups + [Group(names[0], 0)], names[1..], pick);
    }
  }

  /** What a facet may list: the values it counts, and for services those that run
      and those that the selection names. */
  ghost predicate MayList(field: string, groups: seq<Group<string>>, running: seq<string>, sel: Selection, v: string) {
    || (exists g :: g in groups && g.value == v)
    || (field == "service" && v in running)
    || (field == "service" && (sel.mode == SelectInclude || sel.mode == SelectExclude) && v in sel.values)
  }

  /** A box shows its value's own count, none if nothing is counted for it, whether
      the selection lets the value through, and whether the service runs. */
  ghost predicate BoxIsRight(box: FacetValue, field: string, groups: seq<Group<string>>, running: seq<string>,
                             sel: Selection) {
    && (forall g :: g in groups && g.value == box.value ==> box.count == g.count)
    && ((forall g :: g in groups ==> g.value != box.value) ==> box.count == 0)
    && (box.selected <==> IsSelected(sel, box.value))
    && (box.running <==> field == "service" && box.value in running)
  }

  lemma {:induction false} CountIsGroups(groups: seq<Group<string>>, v: string)
    requires NoRepeats(Values(groups))
    ensures forall g :: g in groups && g.value == v ==> CountOf(groups, v) == g.count
    ensures v !in Values(groups) ==> CountOf(groups, v) == 0
  {
    if groups != [] {
      assert Values(groups)[1..] == Values(groups[1..]) && Values(groups)[0] == groups[0].value;
      CountIsGroups(groups[1..], v);
      forall g | g in groups[1..] ensures g.value in Values(groups)[1..] {
        ValueThere(groups[1..], g);
      }
      assert groups[0].value !in Values(groups)[1..];
    }
  }

  lemma ValueThere<K>(groups: seq<Group<K>>, g: Group<K>)
    requires g in groups
    ensures g.value in Values(groups)
  {
    var i :| 0 <= i < |groups| && groups[i] == g;
    assert Values(groups)[i] == g.value;
  }

  lemma {:induction false} ZerosKeepCounts(groups: seq<Group<string>>, names: seq<string>, v: string)
    ensures CountOf(WithZeros(groups, names), v) == CountOf(groups, v)
    decreases |names|
  {
    hide CountOf;
    if names != [] {
      var g := Group(names[0], 0);
      CountSnoc(groups, g);
      AbsentCount(groups, v);
      ZerosKeepCounts(if names[0] in Values(groups) then groups else groups + [g], names[1..], v);
    }
  }

  lemma {:induction false} AbsentCount(groups: seq<Group<string>>, v: string)
    ensures v !in Values(groups) ==> CountOf(groups, v) == 0
  {
    if groups != [] {
      assert Values(groups)[1..] == Values(groups[1..]) && Values(groups)[0] == groups[0].value;
      AbsentCount(groups[1..], v);
    }
  }

  /** A facet lists each value it may list once, and every box is right. */
  lemma BoxesAreRight(field: string, groups: seq<Group<string>>, running: seq<string>, sel: Selection)
    requires NoRepeats(Values(groups))
    ensures var boxes := Listed(field, groups, running, sel);
            && (forall i, j :: 0 <= i < j < |boxes| ==> boxes[i].value != boxes[j].value)
            && (forall v :: (exists i :: 0 <= i < |boxes| && boxes[i].value == v) <==>
                            MayList(field, groups, running, sel, v))
            && (forall i :: 0 <= i < |boxes| ==> BoxIsRight(boxes[i], field, groups, running, sel))
  {
    hide IsSelected, CountOf, SortNames, WithZeros, MayList, BoxIsRight;
    var all := WithZeros(groups, ExtraNames(field, running, sel));
    var values, boxes := Shown(field, Values(all)), Listed(field, groups, running, sel);
    ListedExact(field, groups, running, sel);
    forall v ensures (exists i :: 0 <= i < |boxes| && boxes[i].value == v) <==> MayList(field, groups, running, sel, v) {
      MayListMeans(field, groups, running, sel, v);
      if v in values {
        var i :| 0 <= i < |values| && values[i] == v;
        assert boxes[i].value == v;
      }
    }
    forall i | 0 <= i < |boxes| ensures BoxIsRight(boxes[i], field, groups, running, sel) {
      BoxIsRightAt(boxes[i], field, groups, running, sel);
    }
  }

  lemma MayListMeans(field: string, groups: seq<Group<string>>, running: seq<string>, sel: Selection, v: string)
    ensures MayList(field, groups, running, sel, v) <==> v in Values(groups) || v in ExtraNames(field, running, sel)
  {
    if v in Values(groups) {
      var i :| 0 <= i < |groups| && Values(groups)[i] == v;
      assert groups[i] in groups;
    }
    forall g | g in groups ensures g.value in Values(groups) {
      ValueThere(groups, g);
    }
  }

  lemma BoxIsRightAt(box: FacetValue, field: string, groups: seq<Group<string>>, running: seq<string>, sel: Selection)
    requires NoRepeats(Values(groups))
    requires box == FacetValue(box.value, CountOf(WithZeros(groups, ExtraNames(field, running, sel)), box.value),
                               IsSelected(sel, box.value), field == "service" && box.value in running)
    ensures BoxIsRight(box, field, groups, running, sel)
  {
    hide IsSelected, CountOf, WithZeros;
    ZerosKeepCounts(groups, ExtraNames(field, running, sel), box.value);
    CountIsGroups(groups, box.value);
    if box.value in Values(groups) {
      var i :| 0 <= i < |groups| && Values(groups)[i] == box.value;
      assert groups[i] in groups;
    }
  }

  /** A facet lists exactly the counted values and the extra names, each once,
      services in order; and its checked boxes add up to what is counted under
      checked values. */
  lemma ListedExact(field: string, groups: seq<Group<string>>, running: seq<string>, sel: Selection)
    requires NoRepeats(Values(groups))
    ensures var all := WithZeros(groups, ExtraNames(field, running, sel));
            var values := Shown(field, Values(all));
            && NoRepeats(values) && (field == "service" ==> InNameOrder(values))
            && forall v :: v in values <==> v in Values(groups) || v in ExtraNames(field, running, sel)
    ensures SumChecked(Listed(field, groups, running, sel)) == SumPicked(groups, Selector(sel))
  {
    hide IsSelected, ExtraNames;
    var names := ExtraNames(field, running, sel);
    var all := WithZeros(groups, names);
    ZerosStayDistinct(groups, names);
    ZerosAddNothing(groups, names, Selector(sel));
    SortNamesKeeps(Values(all));
    BoxesSum(field, Shown(field, Values(all)), all, running, sel);
    SortChecks(Values(all), all, sel);
    ChecksFrom(all, 0, sel);
    assert Values(all)[0..] == Values(all) && all[0..] == all;
  }

  /** The values collected so far, in the order they came, and their counts. */
  ghost predicate Collects(values: seq<string>, byValue: map<string, nat>, all: seq<Group<string>>) {
    && NoRepeats(Values(all)) && values == Values(all)
    && forall v :: (v in byValue <==> v in values) && (v in byValue ==> byValue[v] == CountOf(all, v))
  }

  lemma {:induction false} CountSnoc(all: seq<Group<string>>, g: Group<string>)
    ensures forall v :: CountOf(all + [g], v) ==
                        if v in Values(all) then CountOf(all, v) else if v == g.value then g.count else 0
  {
    if all == [] {
      assert all + [g] == [g] && [g][1..] == [];
    } else {
      assert (all + [g])[1..] == all[1..] + [g];
      CountSnoc(all[1..], g);
      assert Values(all) == [all[0].value] + Values(all[1..]);
    }
  }

  lemma CollectsSnoc(values: seq<string>, byValue: map<string, nat>, all: seq<Group<string>>, g: Group<string>)
    requires Collects(values, byValue, all) && g.value !in values
    ensures Collects(values + [g.value], byValue[g.value := g.count], all + [g])
  {
    CountSnoc(all, g);
    assert Values(all + [g]) == Values(all) + [g.value];
  }

  /** Lists a facet: the counted values, then names that have no rows. */
  method ListFacet(field: string, groups: seq<Group<string>>, running: seq<string>, sel: Selection)
      returns (r: seq<FacetValue>)
    requires NoRepeats(Values(groups))
    ensures r == Listed(field, groups, running, sel)
  {
    hide IsSelected, Collects, CountOf, NoRepeats;
    var byValue: map<string, nat>, values: seq<string> := map[], [];
    NothingCollected();
    for i := 0 to |groups|
      invariant Collects(values, byValue, groups[..i])
    {
      NewValue(groups, i);
      CollectedValues(values, byValue, groups[..i]);
      CollectsSnoc(values, byValue, groups[..i], groups[i]);
      assert groups[..i] + [groups[i]] == groups[..i + 1];
      values, byValue := values + [groups[i].value], byValue[groups[i].value := groups[i].count];
    }
    assert groups[..|groups|] == groups;
    ghost var all := groups;
    var names := ExtraNames(field, running, sel);
    for i := 0 to |names|
      invariant Collects(values, byValue, all)
      invariant WithZeros(all, names[i..]) == WithZeros(groups, names)
    {
      assert names[i..][0] == names[i] && names[i..][1..] == names[i + 1..];
      CollectedValues(values, byValue, all);
      if names[i] !in byValue {
        CollectsSnoc(values, byValue, all, Group(names[i], 0));
        values, byValue, all := values + [names[i]], byValue[names[i] := 0], all + [Group(names[i], 0)];
      }
    }
    CollectedValues(values, byValue, all);
    if field == "service" {
      SortNamesKeeps(values);
      values := SortNames(values);
    }
    r := [];
    for i := 0 to |values|
      invariant |r| == i && forall k :: 0 <= k < i ==> r[k] == Boxes(field, values, all, running, sel)[k]
    {
      assert values[i] in values;
      r := r + [FacetValue(values[i], byValue[values[i]], IsSelected(sel, values[i]),
                           field == "service" && values[i] in running)];
    }
  }

  lemma NothingCollected()
    ensures Collects([], map[], [])
  {
  }

  lemma CollectedValues(values: seq<string>, byValue: map<string, nat>, all: seq<Group<string>>)
    requires Collects(values, byValue, all)
    ensures values == Values(all) && NoRepeats(values)
    ensures forall v :: (v in byValue <==> v in values) && (v in byValue ==> byValue[v] == CountOf(all, v))
  {
  }

  lemma NewValue(groups: seq<Group<string>>, i: nat)
    requires NoRepeats(Values(groups)) && i < |groups|
    ensures groups[i].value !in Values(groups[..i])
  {
    assert forall k :: 0 <= k < i ==> Values(groups[..i])[k] == Values(groups)[k];
    assert Values(groups)[i] == groups[i].value;
  }

  // ----- the histogram's total

  function SumCounts<K>(groups: seq<Group<K>>): nat {
    if groups == [] then 0 else groups[0].count + SumCounts(groups[1..])
  }

  function SumBins(bins: seq<nat>): nat {
    if bins == [] then 0 else bins[0] + SumBins(bins[1..])
  }

  lemma {:induction false} SumBinsUpdate(bins: seq<nat>, i: nat, n: nat)
    requires i < |bins|
    ensures SumBins(bins[i := bins[i] + n]) == SumBins(bins) + n
  {
    if i == 0 {
      assert bins[i := bins[i] + n][1..] == bins[1..];
    } else {
      SumBinsUpdate(bins[1..], i - 1, n);
      assert bins[i := bins[i] + n][1..] == bins[1..][i - 1 := bins[i] + n];
    }
  }

  lemma {:induction false} SumCountsSnoc<K>(groups: seq<Group<K>>, g: Group<K>)
    ensures SumCounts(groups + [g]) == SumCounts(groups) + g.count
  {
    if groups == [] {
      assert groups + [g] == [g] && [g][1..] == [];
    } else {
      assert (groups + [g])[1..] == groups[1..] + [g];
      SumCountsSnoc(groups[1..], g);
    }
  }

  lemma {:induction false} NoBins(n: nat)
    ensures SumBins(seq(n, _ => 0)) == 0
  {
    if n > 0 {
      NoBins(n - 1);
      assert seq<nat>(n, _ => 0)[1..] == seq<nat>(n - 1, _ => 0);
    }
  }

  /** One interval: its rows, and those of each level bucket. */
  datatype HistogramBin = HistogramBin(count: nat, levels: map<string, nat>)

  function LevelCount(bin: HistogramBin, bucket: string): nat {
    if bucket in bin.levels then bin.levels[bucket] else 0
  }

  function BinCounts(bins: seq<HistogramBin>): (r: seq<nat>)
    ensures |r| == |bins|
  {
    seq(|bins|, i requires 0 <= i < |bins| => bins[i].count)
  }

  /** The bin a row is counted in: the nearest one, for a row outside them all. */
  function Clamped(bin: int, binCount: nat): nat
    requires 0 < binCount
  {
    if bin < 0 then 0 else if bin >= binCount then binCount - 1 else bin
  }

  function InBin(k: nat, binCount: nat): ((int, string)) -> bool
    requires 0 < binCount
  {
    (key: (int, string)) => Clamped(key.0, binCount) == k
  }

  function InBinBucket(k: nat, binCount: nat, bucket: string): ((int, string)) -> bool
    requires 0 < binCount
  {
    (key: (int, string)) => Clamped(key.0, binCount) == k && LevelBucket(key.1) == bucket
  }

  /** Every bin holds the counts of its own keys, in all and per level bucket. */
  ghost predicate Binned(bins: seq<HistogramBin>, groups: seq<Group<(int, string)>>) {
    && 0 < |bins|
    && (forall k :: 0 <= k < |bins| ==> bins[k].count == SumPicked(groups, InBin(k, |bins|)))
    && (forall k, b :: 0 <= k < |bins| ==> LevelCount(bins[k], b) == SumPicked(groups, InBinBucket(k, |bins|, b)))
  }

  function Counted(bin: HistogramBin, bucket: string, n: nat): HistogramBin {
    HistogramBin(bin.count + n, bin.levels[bucket := LevelCount(bin, bucket) + n])
  }

  lemma BinnedSnoc(bins: seq<HistogramBin>, groups: seq<Group<(int, string)>>, g: Group<(int, string)>)
    requires Binned(bins, groups)
    ensures var k := Clamped(g.value.0, |bins|);
            Binned(bins[k := Counted(bins[k], LevelBucket(g.value.1), g.count)], groups + [g])
  {
    hide LevelBucket, SumPicked;
    var n := |bins|;
    forall k | 0 <= k < n ensures SumPicked(groups + [g], InBin(k, n)) ==
                                  SumPicked(groups, InBin(k, n)) + if Clamped(g.value.0, n) == k then g.count else 0 {
      SumSnoc(groups, g, InBin(k, n));
    }
    forall k, b | 0 <= k < n
      ensures SumPicked(groups + [g], InBinBucket(k, n, b)) ==
              SumPicked(groups, InBinBucket(k, n, b)) +
              if Clamped(g.value.0, n) == k && LevelBucket(g.value.1) == b then g.count else 0
    {
      SumSnoc(groups, g, InBinBucket(k, n, b));
    }
  }

  /** Adds the grouped counts into bins; no count is lost to the clamping. */
  method AccumulateHistogram(groups: seq<Group<(int, string)>>, binCount: nat)
      returns (bins: seq<HistogramBin>, total: nat)
    requires 0 < binCount
    ensures |bins| == binCount && Binned(bins, groups)
    ensures total == SumCounts(groups) == SumBins(BinCounts(bins))
  {
    hide Binned, LevelBucket;
    bins, total := seq(binCount, _ => HistogramBin(0, map[])), 0;
    NoBins(binCount);
    assert BinCounts(bins) == seq(binCount, _ => 0);
    NothingBinned(bins);
    for i := 0 to |groups|
      invariant |bins| == binCount && Binned(bins, groups[..i])
      invariant total == SumCounts(groups[..i]) == SumBins(BinCounts(bins))
    {
      var bin := groups[i].value.0;
      bin := if bin < 0 then 0 else if bin >= binCount then binCount - 1 else bin;
      var level, count := LevelBucket(groups[i].value.1), groups[i].count;
      SumBinsUpdate(BinCounts(bins), bin, count);
      SumCountsSnoc(groups[..i], groups[i]);
      BinnedSnoc(bins, groups[..i], groups[i]);
      assert groups[..i] + [groups[i]] == groups[..i + 1];
      var next := bins[bin := Counted(bins[bin], level, count)];
      assert BinCounts(next) == BinCounts(bins)[bin := bins[bin].count + count];
      bins := next;
      total := total + count;
    }
    assert groups[..|groups|] == groups;
  }

  /** The bins count the rows in them: a row outside them all counts in the first
      or the last one. */
  lemma BinsCountRows(bins: seq<HistogramBin>, keys: seq<(int, string)>, groups: seq<Group<(int, string)>>, k: nat)
    requires Binned(bins, groups) && Grouped(keys, groups) && k < |bins|
    ensures var own := (key: (int, string)) =>
              key.0 == k || (k == 0 && key.0 < 0) || (k == |bins| - 1 && key.0 >= |bins|);
            bins[k].count == CountPicked(keys, own)
    ensures forall b :: LevelCount(bins[k], b) == CountPicked(keys, InBinBucket(k, |bins|, b))
  {
    hide Grouped, LevelBucket;
    var own := (key: (int, string)) =>
      key.0 == k || (k == 0 && key.0 < 0) || (k == |bins| - 1 && key.0 >= |bins|);
    GroupsAddUp(keys, groups, InBin(k, |bins|));
    PickAlike(keys, InBin(k, |bins|), own);
    forall b ensures LevelCount(bins[k], b) == CountPicked(keys, InBinBucket(k, |bins|, b)) {
      GroupsAddUp(keys, groups, InBinBucket(k, |bins|, b));
    }
  }

  lemma {:induction false} PickAlike<K(!new)>(keys: seq<K>, p: K -> bool, q: K -> bool)
    requires forall k :: p(k) == q(k)
    ensures CountPicked(keys, p) == CountPicked(keys, q)
  {
    if keys != [] {
      PickAlike(keys[1..], p, q);
    }
  }

  lemma NothingBinned(bins: seq<HistogramBin>)
    requires 0 < |bins| && forall k :: 0 <= k < |bins| ==> bins[k] == HistogramBin(0, map[])
    ensures Binned(bins, [])
  {
  }

  lemma {:induction false} SumCountsPicksAll<K(!new)>(groups: seq<Group<K>>, pick: K -> bool)
    requires forall k :: pick(k)
    ensures SumCounts(groups) == SumPicked(groups, pick)
  {
    if groups != [] {
      SumCountsPicksAll(groups[1..], pick);
    }
  }

  lemma {:induction false} CountsAll<K(!new)>(keys: seq<K>, pick: K -> bool)
    requires forall k :: pick(k)
    ensures CountPicked(keys, pick) == |keys|
  {
    if keys != [] {
      CountsAll(keys[1..], pick);
    }
  }

  /** However rows are grouped, the total is the number of rows. */
  lemma TotalIsRowCount<K(!new)>(keys: seq<K>, groups: seq<Group<K>>)
    requires Grouped(keys, groups)
    ensures SumCounts(groups) == |keys|
  {
    var all := (k: K) => true;
    GroupsAddUp(keys, groups, all);
    SumCountsPicksAll(groups, all);
    CountsAll(keys, all);
  }

  // ----- facet counts explain the total

  /** The rows of a snapshot that a search matches. */
  ghost function MatchingRows(rows: seq<Row>, f: Filters, nums: Numbers): seq<Row> {
    if rows == [] then []
    else (if Matching(f, rows[0], nums) then [rows[0]] else []) + MatchingRows(rows[1..], f, nums)
  }

  function RowValues(field: string, rows: seq<Row>): seq<string> {
    seq(|rows|, i requires 0 <= i < |rows| => RowValue(field, rows[i]))
  }

  /** The search whose rows are counted per value: the query without its own
      clauses on the field. */
  function CountedFilters(f: Filters, field: string): Result<Filters, RewriteError> {
    var query :- WithSelection(f.query, field, Selection(SelectAll, []));
    Success(f.(query := query))
  }

  /** What is needed of a row for its facet value to speak for it. */
  ghost predicate Speaks(query: string, field: string, row: Row) {
    Parse(query).Success? && Aliases(field).Some?
    && forall n :: n in OnlyClauses(Conjuncts(Parse(query).value), Aliases(field).value) ==> ReadsTrue(field, n, row)
  }

  /** A row matches exactly when it is counted and its value's box is checked. */
  lemma CountedAndChecked(f: Filters, root: Option<Node>, field: string, sel: Selection, row: Row, nums: Numbers)
    requires Aliases(field).Some? && Parse(f.query) == Success(root)
    requires SelectionHolds(f.query, root, field, Selection(SelectAll, []))
    requires SelectionFrom(f.query, field) == Success(sel) && !sel.mode.SelectCustom?
    requires Speaks(f.query, field, row)
    ensures CountedFilters(f, field).Success?
    ensures Matching(f, row, nums) <==>
            Matching(CountedFilters(f, field).value, row, nums) && IsSelected(sel, RowValue(field, row))
  {
    hide Parse, Conjuncts, KeptClauses, SelectionHolds, WithSelection, FieldUse, Meaning, RowValue,
         ReadsTrue, SelectionIn, IsSelected, KAll, RootMeaning, OnlyClauses, AllTrue;
    var aliases, all := Aliases(field).value, Selection(SelectAll, []);
    var ns := Conjuncts(root);
    SetSelectionPreservesMeaning(f.query, root, field, all, row, nums);
    assert Meanings(KeptClauses(ns, aliases), row, nums) + [] == Meanings(KeptClauses(ns, aliases), row, nums);
    ConjunctsMean(root, row, nums);
    AllTrueMeans(ns, row, nums);
    AllTrueMeans(KeptClauses(ns, aliases), row, nums);
    ClausesSplit(ns, aliases, row, nums);
    SelectionSound(ns, field, row, nums);
  }

  /** A row is counted if it is in the window and every clause is true of it that has
      a leaf on something else than the field. */
  lemma CountedMeans(f: Filters, root: Option<Node>, field: string, row: Row, nums: Numbers)
    requires Aliases(field).Some? && Parse(f.query) == Success(root)
    requires SelectionHolds(f.query, root, field, Selection(SelectAll, []))
    ensures CountedFilters(f, field).Success?
    ensures Matching(CountedFilters(f, field).value, row, nums) <==>
            InWindow(f, row) && forall c :: c in Conjuncts(root) && !AllOn(c, field) ==> Meaning(c, row, nums) == True
  {
    hide Parse, Conjuncts, SelectionHolds, WithSelection, Meaning, RootMeaning, AllOn, Keeps;
    WithoutMeans(f.query, root, field, row, nums);
  }

  /** A row that matches is counted, whatever the clauses on the field say. */
  lemma MatchingIsCounted(f: Filters, root: Option<Node>, field: string, row: Row, nums: Numbers)
    requires Aliases(field).Some? && Parse(f.query) == Success(root)
    requires SelectionHolds(f.query, root, field, Selection(SelectAll, [])) && Matching(f, row, nums)
    ensures CountedFilters(f, field).Success?
    ensures Matching(CountedFilters(f, field).value, row, nums)
  {
    hide Parse, Conjuncts, KeptClauses, SelectionHolds, WithSelection, FieldUse, Meaning, KAll, RootMeaning, OnlyClauses,
         AllTrue;
    var aliases, all := Aliases(field).value, Selection(SelectAll, []);
    var ns := Conjuncts(root);
    SetSelectionPreservesMeaning(f.query, root, field, all, row, nums);
    assert Meanings(KeptClauses(ns, aliases), row, nums) + [] == Meanings(KeptClauses(ns, aliases), row, nums);
    ConjunctsMean(root, row, nums);
    AllTrueMeans(ns, row, nums);
    AllTrueMeans(KeptClauses(ns, aliases), row, nums);
    ClausesSplit(ns, aliases, row, nums);
  }

  lemma {:induction false} CheckedRows(rows: seq<Row>, f: Filters, root: Option<Node>, field: string, sel: Selection,
                                       nums: Numbers)
    requires Aliases(field).Some? && Parse(f.query) == Success(root)
    requires SelectionHolds(f.query, root, field, Selection(SelectAll, []))
    requires SelectionFrom(f.query, field) == Success(sel) && !sel.mode.SelectCustom?
    requires CountedFilters(f, field).Success?
    requires forall r :: r in rows && Matching(CountedFilters(f, field).value, r, nums) ==> Speaks(f.query, field, r)
    ensures var counted := MatchingRows(rows, CountedFilters(f, field).value, nums);
            CountPicked(RowValues(field, counted), Selector(sel)) == |MatchingRows(rows, f, nums)|
  {
    hide Parse, SelectionHolds, SelectionFrom, CountedFilters, Matching, RowValue, IsSelected, Speaks;
    if rows != [] {
      assert rows[0] in rows;
      if Matching(CountedFilters(f, field).value, rows[0], nums) {
        CountedAndChecked(f, root, field, sel, rows[0], nums);
      } else if Matching(f, rows[0], nums) {
        MatchingIsCounted(f, root, field, rows[0], nums);
      }
      CheckedRows(rows[1..], f, root, field, sel, nums);
      var counted := CountedFilters(f, field).value;
      var rest := MatchingRows(rows[1..], counted, nums);
      if Matching(counted, rows[0], nums) {
        assert RowValues(field, [rows[0]] + rest)[1..] == RowValues(field, rest);
      } else {
        assert [] + rest == rest;
      }
    }
  }

  lemma GroupsDistinct(keys: seq<string>, groups: seq<Group<string>>)
    requires Grouped(keys, groups)
    ensures NoRepeats(Values(groups))
  {
  }

  /** Facet counts explain the total: on one snapshot the counts of the checked
      values add up to the number of rows the search matches. */
  lemma FacetCountsExplainTotal(rows: seq<Row>, f: Filters, root: Option<Node>, field: string, sel: Selection,
                                groups: seq<Group<string>>, running: seq<string>, nums: Numbers)
    requires Aliases(field).Some? && Parse(f.query) == Success(root)
    requires SelectionHolds(f.query, root, field, Selection(SelectAll, []))
    requires SelectionFrom(f.query, field) == Success(sel) && !sel.mode.SelectCustom?
    requires CountedFilters(f, field).Success?
    requires forall r :: r in rows && Matching(CountedFilters(f, field).value, r, nums) ==> Speaks(f.query, field, r)
    requires Grouped(RowValues(field, MatchingRows(rows, CountedFilters(f, field).value, nums)), groups)
    ensures SumChecked(Listed(field, groups, running, sel)) == |MatchingRows(rows, f, nums)|
  {
    hide Parse, SelectionHolds, SelectionFrom, CountedFilters, Speaks, MatchingRows, Grouped, CountPicked, Matching;
    var keys := RowValues(field, MatchingRows(rows, CountedFilters(f, field).value, nums));
    GroupsAddUp(keys, groups, Selector(sel));
    CheckedRows(rows, f, root, field, sel, nums);
    GroupsDistinct(keys, groups);
    ListedExact(field, groups, running, sel);
  }

  /** What the histogram groups rows by: their bin and their upper-case level. */
  function BinKeys(rows: seq<Row>, bin: Row -> int): (r: seq<(int, string)>)
    ensures |r| == |rows|
  {
    seq(|rows|, i requires 0 <= i < |rows| => (bin(rows[i]), Text.Upper(rows[i].level)))
  }

  /** On one snapshot the counts of the checked values add up to the total that the
      histogram accumulates, wherever it bins the rows. */
  lemma CheckedCountsAreTheTotal(rows: seq<Row>, f: Filters, root: Option<Node>, field: string, sel: Selection,
                                 groups: seq<Group<string>>, running: seq<string>, nums: Numbers,
                                 bin: Row -> int, binned: seq<Group<(int, string)>>)
    requires Aliases(field).Some? && Parse(f.query) == Success(root)
    requires SelectionHolds(f.query, root, field, Selection(SelectAll, []))
    requires SelectionFrom(f.query, field) == Success(sel) && !sel.mode.SelectCustom?
    requires CountedFilters(f, field).Success?
    requires forall r :: r in rows && Matching(CountedFilters(f, field).value, r, nums) ==> Speaks(f.query, field, r)
    requires Grouped(RowValues(field, MatchingRows(rows, CountedFilters(f, field).value, nums)), groups)
    requires Grouped(BinKeys(MatchingRows(rows, f, nums), bin), binned)
    ensures SumChecked(Listed(field, groups, running, sel)) == SumCounts(binned)
  {
    hide Parse, SelectionHolds, SelectionFrom, CountedFilters, Speaks, MatchingRows, Grouped, Matching, Listed, SumCounts;
    FacetCountsExplainTotal(rows, f, root, field, sel, groups, running, nums);
    TotalIsRowCount(BinKeys(MatchingRows(rows, f, nums), bin), binned);
  }

  /** For levels the store groups by upper-case level; adding those counts into
      buckets gives the groups the total is explained by. */
  lemma LevelGroups(rows: seq<Row>, raw: seq<Group<string>>)
    requires Grouped(seq(|rows|, i requires 0 <= i < |rows| => Text.Upper(rows[i].level)), raw)
    ensures Grouped(RowValues("level", rows), BucketGroups(raw))
  {
    hide Grouped, BucketOfUpper, Text.Upper;
    var levels := seq(|rows|, i requires 0 <= i < |rows| => Text.Upper(rows[i].level));
    BucketsGrouped(levels, raw);
    assert Buckets(levels) == RowValues("level", rows);
  }
}
