/** Names in the order of their characters. */
module Names {
  import opened Sequences

  /** Whether one text is not after another in the order of their characters. */
  predicate AtMost(a: string, b: string) {
    a == "" || (b != "" && (a[0] < b[0] || (a[0] == b[0] && AtMost(a[1..], b[1..]))))
  }

  /** One text comes before another if it is the beginning of it, or has the lesser
      character at the first place where they differ. */
  lemma {:induction false} OrderMeans(a: string, b: string, k: nat)
    requires k <= |a| && k <= |b| && a[..k] == b[..k]
    ensures k == |a| ==> AtMost(a, b)
    ensures k < |a| && k < |b| && a[k] < b[k] ==> AtMost(a, b) && !AtMost(b, a)
    ensures k == |a| < |b| ==> !AtMost(b, a)
  {
    if k > 0 {
      assert a[0] == a[..k][0] == b[..k][0] == b[0];
      assert a[1..][..k - 1] == a[..k][1..] == b[..k][1..] == b[1..][..k - 1];
      OrderMeans(a[1..], b[1..], k - 1);
    }
  }

  function InsertName(name: string, names: seq<string>): seq<string> {
    if names == [] || AtMost(name, names[0]) then [name] + names
    else [names[0]] + InsertName(name, names[1..])
  }

  function SortNames(names: seq<string>): seq<string> {
    if names == [] then [] else InsertName(names[0], SortNames(names[1..]))
  }

  predicate InNameOrder(names: seq<string>) {
    forall i, j :: 0 <= i < j < |names| ==> AtMost(names[i], names[j])
  }

  lemma {:induction false} AtMostTotal(a: string, b: string)
    ensures AtMost(a, b) || AtMost(b, a)
  {
    if a != "" && b != "" && a[0] == b[0] {
      AtMostTotal(a[1..], b[1..]);
    }
  }

  lemma {:induction false} AtMostTransitive(a: string, b: string, c: string)
    requires AtMost(a, b) && AtMost(b, c)
    ensures AtMost(a, c)
  {
    if a != "" && a[0] == b[0] && b[0] == c[0] {
      AtMostTransitive(a[1..], b[1..], c[1..]);
    }
  }

  lemma {:induction false} InsertNameKeeps(name: string, names: seq<string>)
    requires InNameOrder(names)
    ensures InNameOrder(InsertName(name, names))
    ensures forall s :: s in InsertName(name, names) <==> s == name || s in names
    ensures name !in names && NoRepeats(names) ==> NoRepeats(InsertName(name, names))
  {
    hide AtMost;
    if names != [] && !AtMost(name, names[0]) {
      InsertNameKeeps(name, names[1..]);
      AtMostTotal(name, names[0]);
      var rest := InsertName(name, names[1..]);
      assert forall i :: 0 <= i < |rest| ==> rest[i] in rest;
    } else if names != [] {
      forall i | 0 <= i < |names| ensures AtMost(name, names[i]) {
        if i > 0 {
          AtMostTransitive(name, names[0], names[i]);
        }
      }
    }
  }

  lemma {:induction false} SortNamesKeeps(names: seq<string>)
    ensures InNameOrder(SortNames(names))
    ensures forall s :: s in SortNames(names) <==> s in names
    ensures NoRepeats(names) ==> NoRepeats(SortNames(names))
  {
    hide InNameOrder;
    if names != [] {
      SortNamesKeeps(names[1..]);
      InsertNameKeeps(names[0], SortNames(names[1..]));
    } else {
      NothingInOrder();
    }
  }

  lemma NothingInOrder()
    ensures InNameOrder([])
  {
  }
}
