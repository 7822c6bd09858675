/** The category filter's options: the distinct categories present in the
    ledger, recomputed after every change. */
module CategorySet {
  import opened Transactions
  import opened Ledgers

  /** The set of categories some record carries. A set has no duplicates,
      and there are never more categories than records. */
  function Categories(l: Ledger): (r: set<string>)
    ensures |r| <= |l|
    decreases |l|
  {
    if |l| == 0 then {} else Categories(l[..|l| - 1]) + {l[|l| - 1].category}
  }

  /** A string is a category exactly when some record carries it. */
  predicate HasCategory(l: Ledger, c: string) {
    exists j :: 0 <= j < |l| && l[j].category == c
  }

  lemma {:induction false} CategoriesMembership(l: Ledger, c: string)
    ensures c in Categories(l) <==> HasCategory(l, c)
    decreases |l|
  {
    if |l| > 0 {
      var p := l[..|l| - 1];
      CategoriesMembership(p, c);
      if HasCategory(p, c) {
        var j :| 0 <= j < |p| && p[j].category == c;
        assert l[j].category == c;
      }
      if HasCategory(l, c) && l[|l| - 1].category != c {
        var j :| 0 <= j < |l| && l[j].category == c;
        assert p[j].category == c;
      }
    }
  }

  predicate Distinct(cs: seq<string>) {
    forall i, j :: 0 <= i < j < |cs| ==> cs[i] != cs[j]
  }

  /** The options handed to the filter box: each category once. The source
      builds them from a hash set, so their order is unspecified; this loop
      happens to list them in order of first appearance, and the contract
      promises no order. */
  method CategoryList(l: Ledger) returns (cs: seq<string>)
    ensures Distinct(cs)
    ensures forall c :: c in cs <==> c in Categories(l)
    ensures |cs| == |Categories(l)|
  {
    cs := [];
    ghost var seen: set<string> := {};
    for i := 0 to |l|
      invariant seen == Categories(l[..i])
      invariant Distinct(cs)
      invariant forall c :: c in cs <==> c in seen
      invariant |cs| == |seen|
    {
      SplitAt(l, i);
      CategoriesAfterAppend(l[..i], l[i]);
      var c := l[i].category;
      assert Categories(l[..i + 1]) == seen + {c};
      OptionStep(cs, seen, c);
      if c !in cs {
        cs := cs + [c];
      }
      seen := seen + {c};
    }
    assert l[..|l|] == l;
  }

  /** Listing a category once more keeps the list duplicate-free and in
      step with the set of categories seen. */
  lemma OptionStep(cs: seq<string>, seen: set<string>, c: string)
    requires Distinct(cs) && |cs| == |seen|
    requires forall x :: x in cs <==> x in seen
    ensures var cs' := if c in cs then cs else cs + [c];
            && Distinct(cs') && |cs'| == |seen + {c}|
            && forall x :: x in cs' <==> x in seen + {c}
  {
    if c in cs {
      assert seen + {c} == seen;
    }
  }

  /** The categories of two ledger parts joined are the union of theirs. */
  lemma {:induction false} CategoriesConcat(a: Ledger, b: Ledger)
    ensures Categories(a + b) == Categories(a) + Categories(b)
    decreases |b|
  {
    if |b| > 0 {
      var b' := b[..|b| - 1];
      assert (a + b)[..|a + b| - 1] == a + b';
      CategoriesConcat(a, b');
    } else {
      assert a + b == a;
    }
  }

  /** An accepted add contributes exactly its own category. */
  lemma CategoriesAfterAppend(l: Ledger, t: Transaction)
    ensures Categories(l + [t]) == Categories(l) + {t.category}
  {
    assert (l + [t])[..|l|] == l;
  }

  /** Taking one record out of the middle of a ledger can only drop that
      record's category. */
  lemma CategoriesSplice(a: Ledger, t: Transaction, b: Ledger)
    ensures Categories(a + [t] + b) == Categories(a + b) + {t.category}
  {
    CategoriesConcat(a + [t], b);
    CategoriesAfterAppend(a, t);
    CategoriesConcat(a, b);
  }

  /** A delete can only drop the removed record's category. */
  lemma CategoriesAfterRemove(l: Ledger, i: nat)
    requires i < |l|
    ensures Categories(l) == Categories(RemoveAt(l, i)) + {l[i].category}
  {
    SplitAt(l, i);
    CategoriesSplice(l[..i], l[i], l[i + 1..]);
  }

  /** The removed record's category survives a delete exactly when some
      other record shares it. */
  lemma CategorySurvivesRemove(l: Ledger, i: nat)
    requires i < |l|
    ensures l[i].category in Categories(RemoveAt(l, i)) <==>
              exists j :: 0 <= j < |l| && j != i && l[j].category == l[i].category
  {
    var r, c := RemoveAt(l, i), l[i].category;
    CategoriesMembership(r, c);
    if HasCategory(r, c) {
      var k :| 0 <= k < |r| && r[k].category == c;
      var j := if k < i then k else k + 1;
      assert l[j].category == c && j != i;
    }
    if exists j :: 0 <= j < |l| && j != i && l[j].category == c {
      var j :| 0 <= j < |l| && j != i && l[j].category == c;
      var k := if j < i then j else j - 1;
      assert r[k].category == c;
    }
  }
}
