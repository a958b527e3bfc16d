/** The meaning of the MongoDB array updates and query stages the handlers use,
    over plain sequences: `$addToSet`, `$pull`, `sort({field: -1})`,
    `limit(n)` and `$group` with `$sum: 1`. */
module Seqs {

  // ---------------------------------------------------------------------------
  // array updates

  /** `$addToSet`: append `x` unless it is already there. Nothing else moves,
      `x` is then present, and only its number of occurrences can change. */
  function AddToSet<T(==)>(xs: seq<T>, x: T): (r: seq<T>)
    ensures xs <= r && x in r
    ensures multiset(r) == multiset(xs)[x := if x in xs then multiset(xs)[x] else 1]
  {
    if x in xs then xs else xs + [x]
  }

  /** `$pull` (and Mongoose's `array.pull`): remove every occurrence of `x`,
      keeping the other elements in their order. */
  function Pull<T(==)>(xs: seq<T>, x: T): (r: seq<T>)
    ensures x !in r
    ensures multiset(r) == multiset(xs)[x := 0]
    ensures x !in xs ==> r == xs
  {
    if xs == [] then []
    else
      assert xs == [xs[0]] + xs[1..];
      (if xs[0] == x then [] else [xs[0]]) + Pull(xs[1..], x)
  }

  /** Pulling twice is pulling once. */
  lemma PullIdempotent<T>(xs: seq<T>, x: T)
    ensures Pull(Pull(xs, x), x) == Pull(xs, x)
  {
  }

  /** `r` is `xs` with some elements left out and the others in their order. */
  ghost predicate IsSubsequence<T>(r: seq<T>, xs: seq<T>)
    decreases |xs|
  {
    if r == [] then true
    else if xs == [] then false
    else (r[0] == xs[0] && IsSubsequence(r[1..], xs[1..])) || IsSubsequence(r, xs[1..])
  }

  /** The ids of `ids` that have a record in `m`, in order (what `populate`
      keeps of a reference array: references to deleted records vanish, and
      a repeated reference stays repeated). */
  function Present<K, V>(ids: seq<K>, m: map<K, V>): (r: seq<K>)
    ensures forall i :: 0 <= i < |r| ==> r[i] in m && r[i] in ids
    ensures forall i :: 0 <= i < |ids| && ids[i] in m ==> ids[i] in r
    ensures |r| <= |ids|
  {
    if ids == [] then []
    else
      var rest := Present(ids[1..], m);
      assert forall i :: 1 <= i < |ids| ==> ids[i] == ids[1..][i - 1];
      if ids[0] in m then [ids[0]] + rest else rest
  }

  /** `Present` keeps each id that has a record as often as it was listed,
      and no other. */
  lemma {:induction false} PresentCounts<K(!new), V>(ids: seq<K>, m: map<K, V>)
    ensures forall x :: multiset(Present(ids, m))[x] == if x in m then multiset(ids)[x] else 0
  {
    if ids != [] {
      PresentCounts(ids[1..], m);
      assert ids == [ids[0]] + ids[1..];
      assert Present(ids, m) == (if ids[0] in m then [ids[0]] else []) + Present(ids[1..], m);
    }
  }

  /** `Present` keeps the order of the list. */
  lemma {:induction false} PresentInOrder<K, V>(ids: seq<K>, m: map<K, V>)
    ensures IsSubsequence(Present(ids, m), ids)
  {
    if ids != [] {
      PresentInOrder(ids[1..], m);
      var rest := Present(ids[1..], m);
      if ids[0] in m {
        assert Present(ids, m) == [ids[0]] + rest;
        assert ([ids[0]] + rest)[1..] == rest;
      } else {
        assert Present(ids, m) == rest;
      }
    }
  }

  // ---------------------------------------------------------------------------
  // sort by a numeric key, largest first

  ghost predicate SortedDesc<T>(xs: seq<T>, key: T -> int) {
    forall i, j :: 0 <= i < j < |xs| ==> key(xs[i]) >= key(xs[j])
  }

  function InsertDesc<T>(x: T, xs: seq<T>, key: T -> int): (r: seq<T>)
    requires SortedDesc(xs, key)
    ensures SortedDesc(r, key)
    ensures multiset(r) == multiset(xs) + multiset{x}
    ensures |r| == |xs| + 1
    ensures forall k :: 0 <= k < |r| ==> r[k] == x || r[k] in xs
  {
    if xs == [] || key(x) >= key(xs[0]) then
      HeadBound(x, xs, key);
      ConsSorted(x, xs, key);
      [x] + xs
    else
      SortedTail(xs, key);
      var rest := InsertDesc(x, xs[1..], key);
      assert xs == [xs[0]] + xs[1..];
      RestBound(x, xs, rest, key);
      ConsSorted(xs[0], rest, key);
      [xs[0]] + rest
  }

  /** A sorted sequence stays sorted under a head no smaller than its elements. */
  lemma ConsSorted<T>(h: T, rest: seq<T>, key: T -> int)
    requires SortedDesc(rest, key)
    requires forall k :: 0 <= k < |rest| ==> key(h) >= key(rest[k])
    ensures SortedDesc([h] + rest, key)
  {
    var r := [h] + rest;
    forall i, j | 0 <= i < j < |r|
      ensures key(r[i]) >= key(r[j])
    {
      if i == 0 {
        assert r[j] == rest[j - 1];
      } else {
        assert r[i] == rest[i - 1] && r[j] == rest[j - 1];
      }
    }
  }

  lemma HeadBound<T>(x: T, xs: seq<T>, key: T -> int)
    requires SortedDesc(xs, key)
    requires xs == [] || key(x) >= key(xs[0])
    ensures forall k :: 0 <= k < |xs| ==> key(x) >= key(xs[k])
  {
  }

  lemma RestBound<T>(x: T, xs: seq<T>, rest: seq<T>, key: T -> int)
    requires xs != [] && SortedDesc(xs, key) && key(x) < key(xs[0])
    requires forall k :: 0 <= k < |rest| ==> rest[k] == x || rest[k] in xs[1..]
    ensures forall k :: 0 <= k < |rest| ==> key(xs[0]) >= key(rest[k])
  {
    forall k | 0 <= k < |rest|
      ensures key(xs[0]) >= key(rest[k])
    {
      if rest[k] != x {
        var j :| 0 <= j < |xs[1..]| && xs[1..][j] == rest[k];
        assert xs[1..][j] == xs[j + 1];
      }
    }
  }

  /** Insertion sort: the result is ordered by `key`, largest first, and is
      a permutation of the input. Among equal keys the order is one of those
      MongoDB may return. */
  function SortDesc<T>(xs: seq<T>, key: T -> int): (r: seq<T>)
    ensures SortedDesc(r, key)
    ensures multiset(r) == multiset(xs)
    ensures |r| == |xs|
  {
    if xs == [] then []
    else
      assert xs == [xs[0]] + xs[1..];
      InsertDesc(xs[0], SortDesc(xs[1..], key), key)
  }

  /** Sorting neither adds nor loses an element. */
  lemma SortKeepsElements<T>(xs: seq<T>, key: T -> int)
    ensures forall x :: x in SortDesc(xs, key) <==> x in xs
  {
    var r := SortDesc(xs, key);
    forall x
      ensures x in r <==> x in xs
    {
      assert x in r <==> x in multiset(r);
      assert x in xs <==> x in multiset(xs);
    }
  }

  /** `limit(n)`. */
  function Take<T>(xs: seq<T>, n: nat): (r: seq<T>)
    ensures |r| == if |xs| < n then |xs| else n
    ensures r <= xs
  {
    if |xs| <= n then xs else xs[..n]
  }

  /** A prefix of a sorted sequence is sorted and part of it. */
  lemma TakeSorted<T>(xs: seq<T>, key: T -> int, n: nat)
    requires SortedDesc(xs, key)
    ensures SortedDesc(Take(xs, n), key)
    ensures multiset(Take(xs, n)) <= multiset(xs)
  {
    var r := Take(xs, n);
    assert xs == r + xs[|r|..];
    forall i, j | 0 <= i < j < |r|
      ensures key(r[i]) >= key(r[j])
    {
      assert r[i] == xs[i] && r[j] == xs[j];
    }
  }

  /** Sort, largest first, then keep the first `n`: every element left out
      has a key no larger than any element kept. */
  lemma {:induction false} TopDominates<T>(xs: seq<T>, key: T -> int, n: nat, y: T, i: nat)
    requires y in multiset(xs) && y !in multiset(Take(SortDesc(xs, key), n))
    requires i < |Take(SortDesc(xs, key), n)|
    ensures key(y) <= key(Take(SortDesc(xs, key), n)[i])
  {
    var s := SortDesc(xs, key);
    var r := Take(s, n);
    assert y in multiset(s);
    var j :| 0 <= j < |s| && s[j] == y;
    assert r[i] == s[i];
  }

  // ---------------------------------------------------------------------------
  // $group by a key with $sum: 1

  datatype Group<K> = Group(key: K, count: nat)

  /** The distinct elements of `xs`, in order of first appearance. */
  function Distinct<K(==)>(xs: seq<K>): (r: seq<K>)
    ensures forall i :: 0 <= i < |xs| ==> xs[i] in r
    ensures forall i :: 0 <= i < |r| ==> r[i] in xs
    ensures forall i, j :: 0 <= i < j < |r| ==> r[i] != r[j]
  {
    if xs == [] then []
    else
      var init := xs[..|xs| - 1];
      var last := xs[|xs| - 1];
      var r := Distinct(init);
      assert xs == init + [last];
      if last in r then r else r + [last]
  }

  /** Some group of `gs` has key `k`. */
  ghost predicate HasGroup<K>(gs: seq<Group<K>>, k: K) {
    exists j :: 0 <= j < |gs| && gs[j].key == k
  }

  /** `$group: {_id: key, count: {$sum: 1}}`: one group per distinct key, in
      order of first appearance, each counting the occurrences of its key. */
  function CountBy<K(==)>(keys: seq<K>): (gs: seq<Group<K>>)
    ensures forall i :: 0 <= i < |gs| ==> gs[i].count == multiset(keys)[gs[i].key] > 0
    ensures forall i :: 0 <= i < |keys| ==> HasGroup(gs, keys[i])
    ensures forall i, j :: 0 <= i < j < |gs| ==> gs[i].key != gs[j].key
  {
    var d := Distinct(keys);
    var gs := seq(|d|, i requires 0 <= i < |d| => Group(d[i], multiset(keys)[d[i]]));
    GroupsCoverKeys(keys, d, gs);
    gs
  }

  lemma GroupsCoverKeys<K>(keys: seq<K>, d: seq<K>, gs: seq<Group<K>>)
    requires forall i :: 0 <= i < |keys| ==> keys[i] in d
    requires |gs| == |d| && forall j :: 0 <= j < |d| ==> gs[j].key == d[j]
    ensures forall i :: 0 <= i < |keys| ==> HasGroup(gs, keys[i])
  {
    forall i | 0 <= i < |keys|
      ensures HasGroup(gs, keys[i])
    {
      var j :| 0 <= j < |d| && d[j] == keys[i];
      assert gs[j].key == keys[i];
    }
  }

  function GroupCount<K>(g: Group<K>): int {
    g.count
  }

  /** `$group`, `$sort: {count: -1}`, `$limit: n`: at most `n` groups, the
      largest counts first, each with the number of occurrences of its key. */
  function Top<K(==)>(keys: seq<K>, n: nat): (r: seq<Group<K>>)
    ensures |r| == if |CountBy(keys)| < n then |CountBy(keys)| else n
    ensures SortedDesc(r, GroupCount)
    ensures forall i :: 0 <= i < |r| ==> r[i].count == multiset(keys)[r[i].key] > 0
    ensures forall i, j :: 0 <= i < j < |r| ==> r[i].key != r[j].key
  {
    var gs := CountBy(keys);
    var s := SortDesc(gs, GroupCount);
    var r := Take(s, n);
    TopFacts(keys, gs, s, r);
    r
  }

  lemma TopFacts<K>(keys: seq<K>, gs: seq<Group<K>>, s: seq<Group<K>>, r: seq<Group<K>>)
    requires gs == CountBy(keys) && s == SortDesc(gs, GroupCount) && r <= s
    ensures SortedDesc(r, GroupCount)
    ensures forall i :: 0 <= i < |r| ==> r[i].count == multiset(keys)[r[i].key] > 0
    ensures forall i, j :: 0 <= i < j < |r| ==> r[i].key != r[j].key
  {
    SortKeepsElements(gs, GroupCount);
    PermutationKeepsKeysDistinct(gs, s);
    forall i, j | 0 <= i < j < |r|
      ensures r[i].key != r[j].key
    {
      assert r[i] == s[i] && r[j] == s[j];
    }
    forall i | 0 <= i < |r|
      ensures r[i].count == multiset(keys)[r[i].key] > 0
    {
      assert r[i] == s[i];
      assert s[i] in gs;
      var j :| 0 <= j < |gs| && gs[j] == r[i];
    }
    forall i, j | 0 <= i < j < |r|
      ensures GroupCount(r[i]) >= GroupCount(r[j])
    {
      assert r[i] == s[i] && r[j] == s[j];
    }
  }

  /** Reordering groups with distinct keys keeps the keys distinct. */
  lemma PermutationKeepsKeysDistinct<K>(gs: seq<Group<K>>, s: seq<Group<K>>)
    requires multiset(s) == multiset(gs)
    requires forall i, j :: 0 <= i < j < |gs| ==> gs[i].key != gs[j].key
    ensures forall i, j :: 0 <= i < j < |s| ==> s[i].key != s[j].key
  {
    assert forall i, j :: 0 <= i < j < |gs| ==> gs[i] != gs[j];
    forall i, j | 0 <= i < j < |s|
      ensures s[i].key != s[j].key
    {
      AtMostOnce(gs, s[i]);
      TwiceCounted(s, i, j);
      assert s[i] != s[j];
      assert s[i] in multiset(gs) && s[j] in multiset(gs);
      var a :| 0 <= a < |gs| && gs[a] == s[i];
      var b :| 0 <= b < |gs| && gs[b] == s[j];
      assert a != b;
    }
  }

  /** In a sequence without repeats every value occurs at most once. */
  lemma {:induction false} AtMostOnce<T>(xs: seq<T>, x: T)
    requires forall i, j :: 0 <= i < j < |xs| ==> xs[i] != xs[j]
    ensures multiset(xs)[x] <= 1
  {
    if xs != [] {
      assert xs == [xs[0]] + xs[1..];
      assert forall k :: 0 <= k < |xs[1..]| ==> xs[1..][k] == xs[k + 1];
      AtMostOnce(xs[1..], x);
      assert xs[0] !in xs[1..];
    }
  }

  /** A value at two positions occurs at least twice. */
  lemma TwiceCounted<T>(s: seq<T>, i: nat, j: nat)
    requires i < j < |s|
    ensures s[i] == s[j] ==> multiset(s)[s[i]] >= 2
  {
    assert s == s[..j] + s[j..];
    assert s[..j][i] == s[i];
    assert s[j..][0] == s[j];
  }

  /** A key that did not make the top `n` occurs no more often than any key
      that did. */
  lemma TopExcludesOnlySmaller<K>(keys: seq<K>, n: nat, k: K, i: nat)
    requires k in keys
    requires forall j :: 0 <= j < |Top(keys, n)| ==> Top(keys, n)[j].key != k
    requires i < |Top(keys, n)|
    ensures multiset(keys)[k] <= Top(keys, n)[i].count
  {
    var gs := CountBy(keys);
    var j :| 0 <= j < |keys| && keys[j] == k;
    var g :| 0 <= g < |gs| && gs[g].key == k;
    var y := gs[g];
    assert y in multiset(gs);
    var r := Take(SortDesc(gs, GroupCount), n);
    assert r == Top(keys, n);
    assert forall m :: 0 <= m < |r| ==> r[m] != y;
    assert y !in r;
    assert y !in multiset(r);
    TopDominates(gs, GroupCount, n, y, i);
  }

  /** A group joined with its record: `$lookup` then `$unwind` then
      `$project` of the key, one field of the record, and the count. */
  datatype Ranked<K> = Ranked(key: K, name: string, count: nat)

  ghost predicate RankedDesc<K>(rs: seq<Ranked<K>>) {
    forall i, j :: 0 <= i < j < |rs| ==> rs[i].count >= rs[j].count
  }

  /** `$lookup` + `$unwind`: groups whose key has no record disappear, the
      others keep their order and carry a name taken from the record. */
  function RankPresent<K(==), V>(gs: seq<Group<K>>, m: map<K, V>, nameOf: V -> string): (r: seq<Ranked<K>>)
    ensures |r| <= |gs|
    ensures forall i :: 0 <= i < |r| ==>
      r[i].key in m && r[i].name == nameOf(m[r[i].key]) && Group(r[i].key, r[i].count) in gs
    ensures forall j :: 0 <= j < |gs| && gs[j].key in m ==> Ranked(gs[j].key, nameOf(m[gs[j].key]), gs[j].count) in r
  {
    if gs == [] then []
    else
      var rest := RankPresent(gs[1..], m, nameOf);
      assert forall j :: 1 <= j < |gs| ==> gs[j] == gs[1..][j - 1];
      if gs[0].key in m then [Ranked(gs[0].key, nameOf(m[gs[0].key]), gs[0].count)] + rest else rest
  }

  /** The join keeps distinct keys distinct. */
  lemma {:induction false} RankPresentDistinct<K, V>(gs: seq<Group<K>>, m: map<K, V>, nameOf: V -> string)
    requires forall i, j :: 0 <= i < j < |gs| ==> gs[i].key != gs[j].key
    ensures forall i, j :: 0 <= i < j < |RankPresent(gs, m, nameOf)| ==>
      RankPresent(gs, m, nameOf)[i].key != RankPresent(gs, m, nameOf)[j].key
  {
    if gs != [] {
      var tail := gs[1..];
      assert forall j :: 0 <= j < |tail| ==> tail[j] == gs[j + 1];
      RankPresentDistinct(tail, m, nameOf);
      var rest := RankPresent(tail, m, nameOf);
      var r := RankPresent(gs, m, nameOf);
      if gs[0].key in m {
        forall i | 0 <= i < |rest|
          ensures rest[i].key != gs[0].key
        {
          var p :| 0 <= p < |tail| && tail[p] == Group(rest[i].key, rest[i].count);
          assert gs[p + 1].key == rest[i].key;
        }
        assert r == [Ranked(gs[0].key, nameOf(m[gs[0].key]), gs[0].count)] + rest;
      } else {
        assert r == rest;
      }
    }
  }

  /** The join keeps the descending order of the counts. */
  lemma {:induction false} RankPresentSorted<K, V>(gs: seq<Group<K>>, m: map<K, V>, nameOf: V -> string)
    requires SortedDesc(gs, GroupCount)
    ensures RankedDesc(RankPresent(gs, m, nameOf))
  {
    if gs != [] {
      var tail := gs[1..];
      SortedTail(gs, GroupCount);
      RankPresentSorted(tail, m, nameOf);
      var rest := RankPresent(tail, m, nameOf);
      var r := RankPresent(gs, m, nameOf);
      if gs[0].key in m {
        HeadDominatesJoin(gs, m, nameOf);
        var h := Ranked(gs[0].key, nameOf(m[gs[0].key]), gs[0].count);
        assert r == [h] + rest;
        ConsRankedDesc(h, rest);
      } else {
        assert r == rest;
      }
    }
  }

  lemma ConsRankedDesc<K>(h: Ranked<K>, rest: seq<Ranked<K>>)
    requires RankedDesc(rest)
    requires forall i :: 0 <= i < |rest| ==> h.count >= rest[i].count
    ensures RankedDesc([h] + rest)
  {
    var r := [h] + rest;
    forall i, j | 0 <= i < j < |r|
      ensures r[i].count >= r[j].count
    {
      if i == 0 {
        assert r[j] == rest[j - 1];
      } else {
        assert r[i] == rest[i - 1] && r[j] == rest[j - 1];
      }
    }
  }

  lemma SortedTail<T>(xs: seq<T>, key: T -> int)
    requires xs != [] && SortedDesc(xs, key)
    ensures SortedDesc(xs[1..], key)
  {
    var tail := xs[1..];
    forall i, j | 0 <= i < j < |tail|
      ensures key(tail[i]) >= key(tail[j])
    {
      assert tail[i] == xs[i + 1] && tail[j] == xs[j + 1];
    }
  }

  lemma HeadDominatesJoin<K, V>(gs: seq<Group<K>>, m: map<K, V>, nameOf: V -> string)
    requires gs != [] && SortedDesc(gs, GroupCount)
    ensures forall i :: 0 <= i < |RankPresent(gs[1..], m, nameOf)| ==> gs[0].count >= RankPresent(gs[1..], m, nameOf)[i].count
  {
    var tail := gs[1..];
    var rest := RankPresent(tail, m, nameOf);
    forall i | 0 <= i < |rest|
      ensures gs[0].count >= rest[i].count
    {
      var g :| 0 <= g < |tail| && tail[g] == Group(rest[i].key, rest[i].count);
      assert GroupCount(gs[0]) >= GroupCount(gs[g + 1]);
    }
  }
}
