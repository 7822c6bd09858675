/** The category filter: the records whose category equals the selected
    one, in ledger order; an empty selection shows the whole ledger. */
module Filtering {
  import opened Transactions
  import opened Ledgers
  import opened CategorySet

  /** The records whose category is exactly `c` (case-sensitive), in ledger
      order. */
  function Matching(l: Ledger, c: string): (r: Ledger)
    ensures |r| <= |l|
    ensures forall k :: 0 <= k < |r| ==> r[k].category == c
    decreases |l|
  {
    if |l| == 0 then []
    else
      var last := l[|l| - 1];
      var rest := Matching(l[..|l| - 1], c);
      if last.category == c then rest + [last] else rest
  }

  /** Every matching record is kept and nothing else: each record occurs in
      the result as often as in the ledger if it matches, and not at all
      otherwise. */
  lemma {:induction false} MatchingCounts(l: Ledger, c: string)
    ensures forall t :: multiset(Matching(l, c))[t] == if t.category == c then multiset(l)[t] else 0
    decreases |l|
  {
    if |l| > 0 {
      var init, last := l[..|l| - 1], l[|l| - 1];
      MatchingCounts(init, c);
      assert l == init + [last];
    }
  }

  /** The filter box's selection handler. A non-empty selection shows only
      the matching records, which is the empty list when nothing matches; an
      empty selection shows the ledger unchanged. */
  function FilterTransactions(l: Ledger, selected: string): (r: Ledger)
    ensures selected == "" ==> r == l
    ensures selected != "" ==> |r| <= |l| && forall k :: 0 <= k < |r| ==> r[k].category == selected
  {
    if selected != "" then Matching(l, selected) else l
  }

  /** The positions of the records with category `c`, in increasing order. */
  function Positions(l: Ledger, c: string): (p: seq<nat>)
    ensures forall k :: 0 <= k < |p| ==> p[k] < |l|
    decreases |l|
  {
    if |l| == 0 then []
    else
      var n := |l| - 1;
      if l[n].category == c then Positions(l[..n], c) + [n] else Positions(l[..n], c)
  }

  predicate Increasing(p: seq<nat>) {
    forall k, m :: 0 <= k < m < |p| ==> p[k] < p[m]
  }

  /** The matching positions strictly increase. */
  lemma {:induction false} PositionsIncrease(l: Ledger, c: string)
    ensures Increasing(Positions(l, c))
    decreases |l|
  {
    if |l| > 0 {
      var n := |l| - 1;
      var rest := Positions(l[..n], c);
      PositionsIncrease(l[..n], c);
      if l[n].category == c {
        var p := rest + [n];
        assert Positions(l, c) == p;
        forall k, m | 0 <= k < m < |p| ensures p[k] < p[m] {
          if m == |rest| {
            assert p[k] == rest[k] < n;
            assert p[m] == n;
          } else {
            assert p[k] == rest[k] && p[m] == rest[m];
          }
        }
      }
    }
  }

  /** Every position holding category `c` is among the matching positions. */
  lemma {:induction false} PositionsComplete(l: Ledger, c: string)
    ensures forall j :: 0 <= j < |l| && l[j].category == c ==> j in Positions(l, c)
    decreases |l|
  {
    if |l| > 0 {
      var n := |l| - 1;
      PositionsComplete(l[..n], c);
      assert forall j :: 0 <= j < n ==> l[j] == l[..n][j];
    }
  }

  /** Reading the ledger at the matching positions gives exactly the
      filtered list. With the two lemmas above, this is what "in ledger
      order" means: the filtered list is the ledger read at every matching
      position, in increasing order. */
  lemma {:induction false} PositionsRead(l: Ledger, c: string)
    ensures var p := Positions(l, c);
            |p| == |Matching(l, c)| && forall k :: 0 <= k < |p| ==> l[p[k]] == Matching(l, c)[k]
    decreases |l|
  {
    if |l| > 0 {
      var n := |l| - 1;
      var init := l[..n];
      PositionsRead(init, c);
      var rest, m := Positions(init, c), Matching(init, c);
      if l[n].category == c {
        assert Positions(l, c) == rest + [n];
        assert Matching(l, c) == m + [l[n]];
        forall k | 0 <= k < |rest| + 1
          ensures l[(rest + [n])[k]] == (m + [l[n]])[k]
        {
          if k < |rest| {
            assert l[rest[k]] == init[rest[k]];
          }
        }
      } else {
        assert Positions(l, c) == rest;
        assert Matching(l, c) == m;
        forall k | 0 <= k < |rest| ensures l[rest[k]] == m[k] {
          assert l[rest[k]] == init[rest[k]];
        }
      }
    }
  }

  /** The same list built the way the handler builds it: one pass over the
      ledger, keeping each matching record. */
  method FilterRows(l: Ledger, selected: string) returns (rows: Ledger)
    ensures rows == FilterTransactions(l, selected)
  {
    if selected == "" {
      return l;
    }
    rows := [];
    for i := 0 to |l|
      invariant rows == Matching(l[..i], selected)
    {
      assert l[..i + 1][..i] == l[..i];
      if l[i].category == selected {
        rows := rows + [l[i]];
      }
    }
    assert l[..|l|] == l;
  }

  /** Filtering commutes with joining: the matches of two parts, one after
      the other, are the matches of the whole. */
  lemma {:induction false} MatchingConcat(a: Ledger, b: Ledger, c: string)
    ensures Matching(a + b, c) == Matching(a, c) + Matching(b, c)
    decreases |b|
  {
    if |b| > 0 {
      var b' := b[..|b| - 1];
      assert (a + b)[..|a + b| - 1] == a + b';
      MatchingConcat(a, b', c);
    } else {
      assert a + b == a;
    }
  }

  /** A ledger whose records all carry category `c` passes the filter whole. */
  lemma {:induction false} MatchingAllMatch(l: Ledger, c: string)
    requires forall k :: 0 <= k < |l| ==> l[k].category == c
    ensures Matching(l, c) == l
    decreases |l|
  {
    if |l| > 0 {
      MatchingAllMatch(l[..|l| - 1], c);
      assert l[..|l| - 1] + [l[|l| - 1]] == l;
    }
  }

  /** Filtering twice by the same selection is filtering once. */
  lemma FilterIdempotent(l: Ledger, selected: string)
    ensures FilterTransactions(FilterTransactions(l, selected), selected) == FilterTransactions(l, selected)
  {
    if selected != "" {
      MatchingAllMatch(Matching(l, selected), selected);
    }
  }

  /** A non-empty selection shows nothing exactly when no record has that
      category; the handler does not fall back to the whole ledger. */
  lemma FilterEmptyIffUnknown(l: Ledger, selected: string)
    requires selected != ""
    ensures FilterTransactions(l, selected) == [] <==> selected !in Categories(l)
  {
    CategoriesMembership(l, selected);
    MatchingCounts(l, selected);
    var r := FilterTransactions(l, selected);
    if HasCategory(l, selected) {
      var j :| 0 <= j < |l| && l[j].category == selected;
      assert l[j] in multiset(l);
      assert l[j] in multiset(r);
    }
    if r != [] {
      assert r[0] in multiset(r);
      assert r[0] in multiset(l);
      var j :| 0 <= j < |l| && l[j] == r[0];
      assert l[j].category == selected;
    }
  }

  /** After an accepted add, the same selection shows the old list plus the
      new record when it matches (or when nothing is selected). */
  lemma FilterAfterAppend(l: Ledger, t: Transaction, selected: string)
    ensures FilterTransactions(l + [t], selected) ==
              FilterTransactions(l, selected) + if selected == "" || t.category == selected then [t] else []
  {
    if selected != "" {
      assert (l + [t])[..|l|] == l;
    }
  }
}
