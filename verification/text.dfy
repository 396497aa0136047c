/**
 * Ordering of genre labels as Python's `sorted` orders `str` values: lexicographic
 * by code point, a proper prefix first.
 */
module Text {

  /** Python's `a < b` on strings; no string is below itself. */
  predicate Below(a: string, b: string)
    ensures Below(a, b) ==> a != b
    decreases |a|
  {
    if a == [] then b != []
    else if b == [] then false
    else a[0] < b[0] || (a[0] == b[0] && Below(a[1..], b[1..]))
  }

  lemma {:induction false} BelowIrreflexive(a: string)
    ensures !Below(a, a)
    decreases |a|
  {
    if a != [] {
      BelowIrreflexive(a[1..]);
    }
  }

  lemma {:induction false} BelowTransitive(a: string, b: string, c: string)
    requires Below(a, b) && Below(b, c)
    ensures Below(a, c)
    decreases |a|
  {
    if a != [] && a[0] == b[0] && b[0] == c[0] {
      BelowTransitive(a[1..], b[1..], c[1..]);
    }
  }

  lemma {:induction false} BelowTotal(a: string, b: string)
    ensures a == b || Below(a, b) || Below(b, a)
    decreases |a|
  {
    if a != [] && b != [] && a[0] == b[0] {
      BelowTotal(a[1..], b[1..]);
      if a[1..] == b[1..] {
        assert a == [a[0]] + a[1..] && b == [b[0]] + b[1..];
      }
    }
  }

  /** Strictly ascending: sorted and without repetitions. */
  predicate Ascending(gs: seq<string>)
  {
    forall i, j :: 0 <= i < j < |gs| ==> Below(gs[i], gs[j])
  }

  /** An ascending list holds every label once. */
  lemma {:induction false} AscendingDistinct(gs: seq<string>)
    requires Ascending(gs)
    ensures forall i, j :: 0 <= i < j < |gs| ==> gs[i] != gs[j]
  {
    forall i, j | 0 <= i < j < |gs| ensures gs[i] != gs[j] {
      BelowIrreflexive(gs[i]);
    }
  }

  /** Adds `g` to an ascending list, where it belongs, unless it is already there. */
  function InsertUnique(g: string, gs: seq<string>): (r: seq<string>)
    requires Ascending(gs)
    ensures Ascending(r)
    ensures forall x :: x in r <==> x == g || x in gs
  {
    if gs == [] then [g]
    else if g == gs[0] then gs
    else if Below(g, gs[0]) then
      assert Ascending([g] + gs) by {
        forall j | 1 <= j < |gs| {
          BelowTransitive(g, gs[0], gs[j]);
        }
      }
      [g] + gs
    else
      BelowTotal(g, gs[0]);
      var rest := InsertUnique(g, gs[1..]);
      assert forall j :: 0 <= j < |rest| ==> Below(gs[0], rest[j]) by {
        forall j | 0 <= j < |rest| ensures Below(gs[0], rest[j]) {
          assert rest[j] in rest;
        }
      }
      [gs[0]] + rest
  }
}
