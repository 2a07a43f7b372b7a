/**
 * Normalisation of a heuristic list: drop the nulls, sort stably by (order, id), and keep the
 * first heuristic of each id.
 */
module ElementHeuristics {
  import opened Wrappers
  import opened ElementHeuristic
  import opened Sequences

  /** The non-null entries, in input order. */
  function Clean(hs: seq<Option<Heuristic>>): (r: seq<Heuristic>)
    ensures |r| <= |hs|
  {
    if hs == [] then []
    else
      var n := |hs| - 1;
      var init := Clean(hs[..n]);
      if hs[n].None? then init else init + [hs[n].value]
  }

  /** The cleaned list holds exactly the non-null entries. */
  lemma {:induction false} CleanMembers(hs: seq<Option<Heuristic>>)
    ensures forall h :: h in Clean(hs) <==> Some(h) in hs
  {
    if hs != [] {
      var n := |hs| - 1;
      assert hs == hs[..n] + [hs[n]];
      CleanMembers(hs[..n]);
    }
  }

  // ---- String.compareTo ----

  /** Lexicographic order on character codes; a proper prefix comes first. */
  predicate StringLess(a: string, b: string) {
    if a == [] then b != []
    else if b == [] then false
    else if a[0] != b[0] then a[0] < b[0]
    else StringLess(a[1..], b[1..])
  }

  lemma {:induction false} StringLessIrreflexive(a: string)
    ensures !StringLess(a, a)
  {
    if a != [] { StringLessIrreflexive(a[1..]); }
  }

  lemma {:induction false} StringLessTransitive(a: string, b: string, c: string)
    requires StringLess(a, b) && StringLess(b, c)
    ensures StringLess(a, c)
  {
    if a != [] && a[0] == b[0] && b[0] == c[0] {
      StringLessTransitive(a[1..], b[1..], c[1..]);
    }
  }

  lemma {:induction false} StringLessTotal(a: string, b: string)
    requires a != b
    ensures StringLess(a, b) || StringLess(b, a)
  {
    if a != [] && b != [] && a[0] == b[0] {
      assert a == [a[0]] + a[1..] && b == [b[0]] + b[1..];
      StringLessTotal(a[1..], b[1..]);
    }
  }

  // ---- the comparator: order ascending, then id ----

  predicate KeyLess(h: Heuristic, g: Heuristic) {
    Order(h) < Order(g) || (Order(h) == Order(g) && StringLess(Id(h), Id(g)))
  }

  /** `h` may stay in front of `g`: the comparator does not put `g` first. */
  predicate KeyLe(h: Heuristic, g: Heuristic) {
    !KeyLess(g, h)
  }

  predicate SameKey(h: Heuristic, g: Heuristic) {
    Order(h) == Order(g) && Id(h) == Id(g)
  }

  lemma KeyLessIrreflexive(h: Heuristic, g: Heuristic)
    requires SameKey(h, g)
    ensures !KeyLess(h, g)
  {
    StringLessIrreflexive(Id(h));
  }

  lemma KeyLeTransitive(a: Heuristic, b: Heuristic, c: Heuristic)
    requires KeyLe(a, b) && KeyLe(b, c)
    ensures KeyLe(a, c)
  {
    if KeyLess(c, a) && Order(c) == Order(a) {
      var ia, ib, ic := Id(a), Id(b), Id(c);
      if ib == ic {
      } else if ib == ia {
      } else {
        StringLessTotal(ib, ic);
        if StringLess(ib, ic) {
          StringLessTransitive(ib, ic, ia);
        }
      }
    }
  }

  lemma KeyLessIsKeyLe(a: Heuristic, b: Heuristic)
    requires KeyLess(a, b)
    ensures KeyLe(a, b)
  {
    if Order(a) == Order(b) && StringLess(Id(b), Id(a)) {
      StringLessTransitive(Id(a), Id(b), Id(a));
      StringLessIrreflexive(Id(a));
    }
  }

  /** Between different ids the comparator is strict. */
  lemma KeyLeDistinctIds(a: Heuristic, b: Heuristic)
    requires KeyLe(a, b) && Id(a) != Id(b)
    ensures KeyLess(a, b)
  {
    if Order(a) == Order(b) {
      StringLessTotal(Id(a), Id(b));
    }
  }

  predicate Sorted(s: seq<Heuristic>) {
    forall i, j :: 0 <= i < j < |s| ==> KeyLe(s[i], s[j])
  }

  /** Strictly increasing in (order, id). */
  predicate StrictlySorted(s: seq<Heuristic>) {
    forall i, j :: 0 <= i < j < |s| ==> KeyLess(s[i], s[j])
  }

  // ---- List.sort: a stable sort ----

  /** Inserts `x` before the first element it may precede, so it stays behind its key-equals. */
  function Insert(x: Heuristic, t: seq<Heuristic>): (r: seq<Heuristic>)
    ensures |r| == |t| + 1
  {
    if t == [] then [x]
    else if KeyLe(x, t[0]) then [x] + t
    else [t[0]] + Insert(x, t[1..])
  }

  /** The comparator sort of the list. */
  function Sort(s: seq<Heuristic>): (r: seq<Heuristic>)
    ensures |r| == |s|
  {
    if s == [] then []
    else Insert(s[0], Sort(s[1..]))
  }

  lemma {:induction false} InsertPermutation(x: Heuristic, t: seq<Heuristic>)
    ensures multiset(Insert(x, t)) == multiset(t) + multiset{x}
  {
    if t != [] && !KeyLe(x, t[0]) {
      InsertPermutation(x, t[1..]);
      assert t == [t[0]] + t[1..];
    }
  }

  /** The sort is a permutation of its input. */
  lemma {:induction false} SortPermutation(s: seq<Heuristic>)
    ensures multiset(Sort(s)) == multiset(s)
  {
    if s != [] {
      SortPermutation(s[1..]);
      InsertPermutation(s[0], Sort(s[1..]));
      assert s == [s[0]] + s[1..];
    }
  }

  lemma {:induction false} InsertSorted(x: Heuristic, t: seq<Heuristic>)
    requires Sorted(t)
    ensures Sorted(Insert(x, t))
  {
    if t != [] && !KeyLe(x, t[0]) {
      var r := Insert(x, t);
      InsertSorted(x, t[1..]);
      var rest := Insert(x, t[1..]);
      InsertPermutation(x, t[1..]);
      assert r == [t[0]] + rest;
      forall j | 0 < j < |r| ensures KeyLe(r[0], r[j]) {
        assert r[j] == rest[j - 1];
        assert rest[j - 1] in multiset(rest);
        if rest[j - 1] == x {
          KeyLessIsKeyLe(t[0], x);
        } else {
          assert rest[j - 1] in t[1..];
        }
      }
    } else if t != [] {
      var r := Insert(x, t);
      forall j | 0 < j < |r| ensures KeyLe(r[0], r[j]) {
        if j > 1 { KeyLeTransitive(x, t[0], t[j - 1]); }
      }
    }
  }

  lemma {:induction false} SortSorted(s: seq<Heuristic>)
    ensures Sorted(Sort(s))
  {
    if s != [] {
      SortSorted(s[1..]);
      InsertSorted(s[0], Sort(s[1..]));
    }
  }

  /** A list that is already sorted is left as it is. */
  lemma {:induction false} SortOfSorted(s: seq<Heuristic>)
    requires Sorted(s)
    ensures Sort(s) == s
  {
    if s != [] {
      assert Sorted(s[1..]);
      SortOfSorted(s[1..]);
      assert s == [s[0]] + s[1..];
    }
  }

  /** The entries of one key, in list order. */
  function FilterKey(s: seq<Heuristic>, order: int, id: string): (r: seq<Heuristic>)
    ensures |r| <= |s|
  {
    if s == [] then []
    else (if Order(s[0]) == order && Id(s[0]) == id then [s[0]] else []) + FilterKey(s[1..], order, id)
  }

  /** `FilterKey` of a list with a given head. */
  lemma FilterKeyCons(h: Heuristic, t: seq<Heuristic>, order: int, id: string)
    ensures FilterKey([h] + t, order, id) == (if Order(h) == order && Id(h) == id then [h] else []) + FilterKey(t, order, id)
  {
    assert ([h] + t)[0] == h && ([h] + t)[1..] == t;
  }

  lemma {:induction false} InsertFilterKey(x: Heuristic, t: seq<Heuristic>, order: int, id: string)
    ensures FilterKey(Insert(x, t), order, id)
         == (if Order(x) == order && Id(x) == id then [x] else []) + FilterKey(t, order, id)
  {
    if t == [] {
      FilterKeyCons(x, [], order, id);
    } else if KeyLe(x, t[0]) {
      FilterKeyCons(x, t, order, id);
    } else {
      var t0, rest := t[0], t[1..];
      assert t == [t0] + rest;
      var fx := if Order(x) == order && Id(x) == id then [x] else [];
      var ft := if Order(t0) == order && Id(t0) == id then [t0] else [];
      FilterKeyCons(t0, Insert(x, rest), order, id);
      FilterKeyCons(t0, rest, order, id);
      InsertFilterKey(x, rest, order, id);
      if fx != [] && ft != [] {
        KeyLessIrreflexive(t0, x);
        assert false;
      }
      assert ft + (fx + FilterKey(rest, order, id)) == fx + (ft + FilterKey(rest, order, id));
    }
  }

  /** Stability: the sort keeps the input order of heuristics that compare equal. */
  lemma {:induction false} SortStable(s: seq<Heuristic>, order: int, id: string)
    ensures FilterKey(Sort(s), order, id) == FilterKey(s, order, id)
  {
    if s != [] {
      SortStable(s[1..], order, id);
      InsertFilterKey(s[0], Sort(s[1..]), order, id);
    }
  }

  // ---- the LinkedHashMap pass: first heuristic of each id wins ----

  function IdsOf(s: seq<Heuristic>): set<string> {
    if s == [] then {} else IdsOf(s[..|s| - 1]) + {Id(s[|s| - 1])}
  }

  lemma {:induction false} IdsOfMembers(s: seq<Heuristic>)
    ensures forall i :: 0 <= i < |s| ==> Id(s[i]) in IdsOf(s)
    ensures forall id :: id in IdsOf(s) ==> exists i :: 0 <= i < |s| && Id(s[i]) == id
  {
    if s != [] {
      var n := |s| - 1;
      IdsOfMembers(s[..n]);
      assert forall i :: 0 <= i < n ==> s[..n][i] == s[i];
    }
  }

  lemma IdsOfAppend(s: seq<Heuristic>, h: Heuristic)
    ensures IdsOf(s + [h]) == IdsOf(s) + {Id(h)}
  {
    assert (s + [h])[..|s|] == s;
  }

  predicate DistinctIds(s: seq<Heuristic>) {
    forall i, j :: 0 <= i < j < |s| ==> Id(s[i]) != Id(s[j])
  }

  /** No earlier entry of `s` has the id of `s[i]`. */
  predicate FirstOfItsId(s: seq<Heuristic>, i: int)
    requires 0 <= i < |s|
  {
    forall j :: 0 <= j < i ==> Id(s[j]) != Id(s[i])
  }

  function Dedupe(s: seq<Heuristic>): seq<Heuristic> {
    if s == [] then []
    else
      var n := |s| - 1;
      var d := Dedupe(s[..n]);
      if Id(s[n]) in IdsOf(d) then d else d + [s[n]]
  }

  /** The deduplicated list is a subsequence of the input with the same ids. */
  lemma {:induction false} DedupeShape(s: seq<Heuristic>)
    ensures IsSubsequence(Dedupe(s), s)
    ensures IdsOf(Dedupe(s)) == IdsOf(s)
  {
    if s == [] {
      SubsequenceReflexive(s);
    } else {
      var n := |s| - 1;
      assert s == s[..n] + [s[n]];
      var d := Dedupe(s[..n]);
      DedupeShape(s[..n]);
      SubsequenceExtend(d, s[..n], s[n]);
      IdsOfAppend(d, s[n]);
      IdsOfAppend(s[..n], s[n]);
    }
  }

  lemma {:induction false} DedupeDistinct(s: seq<Heuristic>)
    ensures DistinctIds(Dedupe(s))
  {
    if s != [] {
      var n := |s| - 1;
      DedupeDistinct(s[..n]);
      IdsOfMembers(Dedupe(s[..n]));
    }
  }

  lemma {:induction false} DedupeKeepsFirst(s: seq<Heuristic>, x: Heuristic)
    requires x in Dedupe(s)
    ensures exists i :: 0 <= i < |s| && s[i] == x && FirstOfItsId(s, i)
  {
    var n := |s| - 1;
    var p := s[..n];
    var d := Dedupe(p);
    if x in d {
      DedupeKeepsFirst(p, x);
      var i :| 0 <= i < n && p[i] == x && FirstOfItsId(p, i);
      forall j | 0 <= j < i ensures Id(s[j]) != Id(s[i]) {
        assert p[j] == s[j] && p[i] == s[i];
      }
    } else {
      assert x == s[n];
      DedupeShape(p);
      IdsOfMembers(p);
      forall j | 0 <= j < n ensures Id(s[j]) != Id(s[n]) {
        assert p[j] == s[j];
      }
    }
  }

  lemma {:induction false} DedupeSorted(s: seq<Heuristic>)
    requires Sorted(s)
    ensures Sorted(Dedupe(s))
  {
    if s != [] {
      var n := |s| - 1;
      assert Sorted(s[..n]);
      DedupeSorted(s[..n]);
      var d := Dedupe(s[..n]);
      DedupeShape(s[..n]);
      SubsequenceMembers(d, s[..n]);
      var r := Dedupe(s);
      forall i, j | 0 <= i < j < |r| ensures KeyLe(r[i], r[j]) {
        if j == |d| {
          assert r[i] == d[i] && d[i] in s[..n];
          var k :| 0 <= k < n && s[k] == d[i];
        }
      }
    }
  }

  lemma {:induction false} DedupeOfDistinct(s: seq<Heuristic>)
    requires DistinctIds(s)
    ensures Dedupe(s) == s
  {
    if s != [] {
      var n := |s| - 1;
      assert DistinctIds(s[..n]);
      DedupeOfDistinct(s[..n]);
      IdsOfMembers(s[..n]);
      assert Id(s[n]) !in IdsOf(s[..n]);
      assert s == s[..n] + [s[n]];
    }
  }

  // ---- normalize ----

  /** `normalize`: clean, sort, then keep the first heuristic of each id. */
  function NormalizeSpec(hs: seq<Option<Heuristic>>): seq<Heuristic> {
    Dedupe(Sort(Clean(hs)))
  }

  method Normalize(heuristics: Option<seq<Option<Heuristic>>>) returns (out: seq<Heuristic>)
    ensures heuristics.None? ==> out == []
    ensures heuristics.Some? ==> out == NormalizeSpec(heuristics.value)
  {
    if heuristics.None? || heuristics.value == [] {
      return [];
    }
    var cleaned := CleanList(heuristics.value);
    var sorted := Sort(cleaned);
    out := FirstOfEachId(sorted);
  }

  /** The loop that drops the nulls. */
  method CleanList(hs: seq<Option<Heuristic>>) returns (cleaned: seq<Heuristic>)
    ensures cleaned == Clean(hs)
  {
    cleaned := [];
    var i := 0;
    while i < |hs|
      invariant 0 <= i <= |hs|
      invariant cleaned == Clean(hs[..i])
    {
      assert hs[..i + 1][..i] == hs[..i];
      if hs[i].Some? {
        cleaned := cleaned + [hs[i].value];
      }
      i := i + 1;
    }
    assert hs[..i] == hs;
  }

  /** The `LinkedHashMap.putIfAbsent` loop: the first heuristic of each id, in list order. */
  method FirstOfEachId(sorted: seq<Heuristic>) returns (out: seq<Heuristic>)
    ensures out == Dedupe(sorted)
  {
    var seen: set<string> := {};
    out := [];
    var k := 0;
    while k < |sorted|
      invariant 0 <= k <= |sorted|
      invariant out == Dedupe(sorted[..k])
      invariant seen == IdsOf(out)
    {
      assert sorted[..k + 1][..k] == sorted[..k];
      var h := sorted[k];
      if Id(h) !in seen {
        IdsOfAppend(out, h);
        seen := seen + {Id(h)};
        out := out + [h];
      }
      k := k + 1;
    }
    assert sorted[..k] == sorted;
  }

  /** Every normalized heuristic is a non-null entry of the input. */
  lemma NormalizeFromInput(hs: seq<Option<Heuristic>>)
    ensures forall h :: h in NormalizeSpec(hs) ==> Some(h) in hs
    ensures IdsOf(NormalizeSpec(hs)) == IdsOf(Clean(hs))
    ensures DistinctIds(NormalizeSpec(hs))
  {
    var c := Clean(hs);
    var s := Sort(c);
    DedupeShape(s);
    SubsequenceMembers(Dedupe(s), s);
    CleanMembers(hs);
    SortIds(c);
    DedupeDistinct(s);
  }

  /** A list whose entries all occur in another has no id the other lacks. */
  lemma IdsOfSubset(a: seq<Heuristic>, b: seq<Heuristic>)
    requires forall h :: h in a ==> h in b
    ensures IdsOf(a) <= IdsOf(b)
  {
    IdsOfMembers(a);
    IdsOfMembers(b);
    forall id | id in IdsOf(a) ensures id in IdsOf(b) {
      var i :| 0 <= i < |a| && Id(a[i]) == id;
      assert a[i] in b;
    }
  }

  /** Sorting keeps the entries and the set of ids. */
  lemma SortIds(c: seq<Heuristic>)
    ensures forall h :: h in Sort(c) <==> h in c
    ensures IdsOf(Sort(c)) == IdsOf(c)
  {
    var s := Sort(c);
    SortPermutation(c);
    assert forall h :: h in s <==> h in multiset(s);
    assert forall h :: h in c <==> h in multiset(c);
    IdsOfSubset(s, c);
    IdsOfSubset(c, s);
  }

  /** The result is strictly increasing by order, then id. */
  lemma NormalizeStrictlySorted(hs: seq<Option<Heuristic>>)
    ensures StrictlySorted(NormalizeSpec(hs))
  {
    var s := Sort(Clean(hs));
    SortSorted(Clean(hs));
    DedupeSorted(s);
    var r := Dedupe(s);
    DedupeDistinct(s);
    forall i, j | 0 <= i < j < |r| ensures KeyLess(r[i], r[j]) {
      KeyLeDistinctIds(r[i], r[j]);
    }
  }

  /** The entry at `i` is the first of key (order, id) when no earlier entry shares its id. */
  lemma {:induction false} FilterKeyHead(s: seq<Heuristic>, i: int)
    requires 0 <= i < |s| && FirstOfItsId(s, i)
    ensures FilterKey(s, Order(s[i]), Id(s[i])) != []
    ensures FilterKey(s, Order(s[i]), Id(s[i]))[0] == s[i]
  {
    if i > 0 {
      assert Id(s[0]) != Id(s[i]);
      assert s[1..][i - 1] == s[i];
      FilterKeyHead(s[1..], i - 1);
    }
  }

  /**
   * For an id given several times, the survivor has the lowest order among the entries of that
   * id, and among those of that order it is the earliest in the input.
   */
  lemma NormalizeSurvivor(hs: seq<Option<Heuristic>>, x: Heuristic)
    requires x in NormalizeSpec(hs)
    ensures forall y :: Some(y) in hs && Id(y) == Id(x) ==> Order(x) <= Order(y)
    ensures FilterKey(Clean(hs), Order(x), Id(x)) != []
    ensures FilterKey(Clean(hs), Order(x), Id(x))[0] == x
  {
    var c := Clean(hs);
    var s := Sort(c);
    SortSorted(c);
    SortPermutation(c);
    CleanMembers(hs);
    DedupeKeepsFirst(s, x);
    var i :| 0 <= i < |s| && s[i] == x && FirstOfItsId(s, i);
    forall y | Some(y) in hs && Id(y) == Id(x) ensures Order(x) <= Order(y) {
      assert y in multiset(s);
      var j :| 0 <= j < |s| && s[j] == y;
      if j > i {
        assert KeyLe(s[i], s[j]);
      }
    }
    FilterKeyHead(s, i);
    SortStable(c, Order(x), Id(x));
  }

  /** Wraps every heuristic as a non-null entry. */
  function Entries(s: seq<Heuristic>): (r: seq<Option<Heuristic>>)
    ensures |r| == |s|
    ensures forall i :: 0 <= i < |s| ==> r[i] == Some(s[i])
  {
    seq(|s|, i requires 0 <= i < |s| => Some(s[i]))
  }

  lemma {:induction false} CleanEntries(s: seq<Heuristic>)
    ensures Clean(Entries(s)) == s
  {
    if s != [] {
      var n := |s| - 1;
      assert Entries(s)[..n] == Entries(s[..n]);
      CleanEntries(s[..n]);
      assert s == s[..n] + [s[n]];
    }
  }

  /** Normalizing a normalized list changes nothing. */
  lemma NormalizeIdempotent(hs: seq<Option<Heuristic>>)
    ensures NormalizeSpec(Entries(NormalizeSpec(hs))) == NormalizeSpec(hs)
  {
    var n := NormalizeSpec(hs);
    CleanEntries(n);
    NormalizeStrictlySorted(hs);
    forall i, j | 0 <= i < j < |n| ensures KeyLe(n[i], n[j]) {
      KeyLessIsKeyLe(n[i], n[j]);
    }
    SortOfSorted(n);
    NormalizeFromInput(hs);
    DedupeOfDistinct(n);
  }
}
