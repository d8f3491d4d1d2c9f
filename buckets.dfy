/** The handler array of one event: a PHP ordered array from an integer
    priority to the list of callbacks bound at that priority. Its keys keep
    the order in which they were first used until `ksort` puts them in
    ascending order. */
module Buckets {
  import opened Php

  /** One key of an event's handler array with the callbacks bound under it,
      in bind order. */
  datatype Bucket = Bucket(priority: int, callbacks: seq<Callback>)

  /** One callback as `fire` meets it, tagged with the priority it was bound at. */
  datatype Entry = Entry(priority: int, callback: Callback)

  /** The keys of a handler array. */
  function Priorities(bs: seq<Bucket>): set<int> {
    set i | 0 <= i < |bs| :: bs[i].priority
  }

  /** A PHP array never holds a key twice. */
  ghost predicate DistinctKeys(bs: seq<Bucket>) {
    forall i, j :: 0 <= i < j < |bs| ==> bs[i].priority != bs[j].priority
  }

  /** Keys in strictly ascending order: the state `ksort` leaves behind. */
  ghost predicate Ascending(bs: seq<Bucket>) {
    forall i, j :: 0 <= i < j < |bs| ==> bs[i].priority < bs[j].priority
  }

  /** What `bind` can produce: at least one key, no key twice, and no key
      without a callback. */
  ghost predicate WellFormed(bs: seq<Bucket>) {
    && bs != []
    && DistinctKeys(bs)
    && forall i :: 0 <= i < |bs| ==> bs[i].callbacks != []
  }

  /** `$handlers[$event][$priority]`, or the empty list when the key is absent. */
  function Lookup(bs: seq<Bucket>, p: int): seq<Callback> {
    if bs == [] then []
    else if bs[0].priority == p then bs[0].callbacks
    else Lookup(bs[1..], p)
  }

  lemma {:induction false} LookupAbsent(bs: seq<Bucket>, p: int)
    requires p !in Priorities(bs)
    ensures Lookup(bs, p) == []
  {
    if bs != [] {
      assert Priorities(bs[1..]) <= Priorities(bs) by {
        forall q | q in Priorities(bs[1..]) ensures q in Priorities(bs) {
          var i :| 0 <= i < |bs[1..]| && bs[1..][i].priority == q;
          assert bs[i + 1].priority == q;
        }
      }
      LookupAbsent(bs[1..], p);
    }
  }

  lemma PrioritiesCons(b: Bucket, bs: seq<Bucket>)
    ensures Priorities([b] + bs) == {b.priority} + Priorities(bs)
  {
    var s := [b] + bs;
    forall q | q in Priorities(s) ensures q in {b.priority} + Priorities(bs) {
      var i :| 0 <= i < |s| && s[i].priority == q;
      if i > 0 { assert bs[i - 1].priority == q; }
    }
    forall q | q in Priorities(bs) ensures q in Priorities(s) {
      var i :| 0 <= i < |bs| && bs[i].priority == q;
      assert s[i + 1].priority == q;
    }
    assert s[0].priority == b.priority;
  }

  /** `$handlers[$event][$priority][] = $callback`: the callback goes at the
      end of the bucket for `p`; a key not present yet is added at the end of
      the array, after all existing keys. */
  function Push(bs: seq<Bucket>, p: int, cb: Callback): (r: seq<Bucket>)
    ensures Priorities(r) == Priorities(bs) + {p}
    ensures p !in Priorities(bs) ==> r == bs + [Bucket(p, [cb])]
  {
    if bs == [] then
      var r := [Bucket(p, [cb])];
      assert r[0].priority == p;
      r
    else if bs[0].priority == p then
      PrioritiesCons(bs[0], bs[1..]);
      PrioritiesCons(Bucket(p, bs[0].callbacks + [cb]), bs[1..]);
      assert [bs[0]] + bs[1..] == bs;
      [Bucket(p, bs[0].callbacks + [cb])] + bs[1..]
    else
      var tail := Push(bs[1..], p, cb);
      PrioritiesCons(bs[0], bs[1..]);
      PrioritiesCons(bs[0], tail);
      assert [bs[0]] + bs[1..] == bs;
      [bs[0]] + tail
  }

  /** Binding touches only bucket `p`, where the callback comes last. */
  lemma {:induction false} PushLookup(bs: seq<Bucket>, p: int, cb: Callback, q: int)
    ensures Lookup(Push(bs, p, cb), q) == if q == p then Lookup(bs, q) + [cb] else Lookup(bs, q)
  {
    if bs != [] && bs[0].priority != p {
      PushLookup(bs[1..], p, cb, q);
    }
  }

  /** Binding at a priority already in use keeps the keys and their order. */
  lemma {:induction false} PushKeepsKeys(bs: seq<Bucket>, p: int, cb: Callback)
    requires p in Priorities(bs)
    ensures |Push(bs, p, cb)| == |bs|
    ensures forall i :: 0 <= i < |bs| ==> Push(bs, p, cb)[i].priority == bs[i].priority
  {
    if bs[0].priority != p {
      PrioritiesCons(bs[0], bs[1..]);
      assert [bs[0]] + bs[1..] == bs;
      PushKeepsKeys(bs[1..], p, cb);
    }
  }

  lemma DistinctCons(x: Bucket, t: seq<Bucket>)
    requires x.priority !in Priorities(t) && DistinctKeys(t)
    ensures DistinctKeys([x] + t)
  {
    var r := [x] + t;
    forall i, j | 0 <= i < j < |r| ensures r[i].priority != r[j].priority {
      assert r[j] == t[j - 1];
      if i > 0 { assert r[i] == t[i - 1]; } else { assert t[j - 1].priority in Priorities(t); }
    }
  }

  /** Binding keeps the handler array a valid PHP array with no empty bucket. */
  lemma {:induction false} PushWellFormed(bs: seq<Bucket>, p: int, cb: Callback)
    requires DistinctKeys(bs) && forall i :: 0 <= i < |bs| ==> bs[i].callbacks != []
    ensures WellFormed(Push(bs, p, cb))
  {
    if bs == [] {
    } else if bs[0].priority == p {
      HeadKeyNotInTail(bs);
      DistinctCons(Bucket(p, bs[0].callbacks + [cb]), bs[1..]);
    } else {
      HeadKeyNotInTail(bs);
      var tail := Push(bs[1..], p, cb);
      PushWellFormed(bs[1..], p, cb);
      DistinctCons(bs[0], tail);
      assert Push(bs, p, cb) == [bs[0]] + tail;
    }
  }

  lemma HeadKeyNotInTail(bs: seq<Bucket>)
    requires bs != [] && DistinctKeys(bs)
    ensures DistinctKeys(bs[1..])
    ensures bs[0].priority !in Priorities(bs[1..])
  {
    var rest := bs[1..];
    forall i, j | 0 <= i < j < |rest| ensures rest[i].priority != rest[j].priority {
      assert rest[i] == bs[i + 1] && rest[j] == bs[j + 1];
    }
    forall k | 0 <= k < |rest| ensures rest[k].priority != bs[0].priority {
      assert rest[k] == bs[k + 1];
    }
  }

  /** Places `b` before the first bucket with a larger key. */
  function Insert(b: Bucket, s: seq<Bucket>): (r: seq<Bucket>)
    ensures multiset(r) == multiset(s) + multiset{b}
  {
    if s == [] || b.priority < s[0].priority then [b] + s
    else
      assert s == [s[0]] + s[1..];
      [s[0]] + Insert(b, s[1..])
  }

  /** `ksort`: the handler array reordered by ascending key. */
  function KSort(bs: seq<Bucket>): (r: seq<Bucket>)
    ensures multiset(r) == multiset(bs)
  {
    if bs == [] then []
    else
      assert bs == [bs[0]] + bs[1..];
      Insert(bs[0], KSort(bs[1..]))
  }

  lemma PrioritiesOfPermutation(a: seq<Bucket>, b: seq<Bucket>)
    requires multiset(a) == multiset(b)
    ensures Priorities(a) == Priorities(b)
  {
    forall q | q in Priorities(a) ensures q in Priorities(b) {
      var i :| 0 <= i < |a| && a[i].priority == q;
      assert a[i] in multiset(b);
      var j :| 0 <= j < |b| && b[j] == a[i];
    }
    forall q | q in Priorities(b) ensures q in Priorities(a) {
      var i :| 0 <= i < |b| && b[i].priority == q;
      assert b[i] in multiset(a);
      var j :| 0 <= j < |a| && a[j] == b[i];
    }
  }

  /** Every key of `s` is larger than `p`. */
  ghost predicate Above(p: int, s: seq<Bucket>) {
    forall k :: 0 <= k < |s| ==> p < s[k].priority
  }

  lemma AscendingCons(x: Bucket, t: seq<Bucket>)
    requires Above(x.priority, t) && Ascending(t)
    ensures Ascending([x] + t)
  {
    var r := [x] + t;
    forall i, j | 0 <= i < j < |r| ensures r[i].priority < r[j].priority {
      assert r[j] == t[j - 1];
      if i > 0 { assert r[i] == t[i - 1]; }
    }
  }

  lemma {:induction false} InsertAbove(p: int, b: Bucket, s: seq<Bucket>)
    requires Above(p, s) && p < b.priority
    ensures Above(p, Insert(b, s))
  {
    if s == [] || b.priority < s[0].priority {
    } else {
      InsertAbove(p, b, s[1..]);
    }
  }

  lemma {:induction false} InsertAscending(b: Bucket, s: seq<Bucket>)
    requires Ascending(s) && b.priority !in Priorities(s)
    ensures Ascending(Insert(b, s))
  {
    if s == [] {
    } else if b.priority < s[0].priority {
      forall k | 0 <= k < |s| ensures b.priority < s[k].priority {
        HeadIsLeast(s, k);
      }
      AscendingCons(b, s);
    } else {
      assert s[0].priority in Priorities(s);
      AscendingTail(s);
      assert Priorities(s[1..]) <= Priorities(s) by {
        forall q | q in Priorities(s[1..]) ensures q in Priorities(s) {
          var i :| 0 <= i < |s[1..]| && s[1..][i].priority == q;
          assert s[i + 1].priority == q;
        }
      }
      InsertAscending(b, s[1..]);
      InsertAbove(s[0].priority, b, s[1..]);
      AscendingCons(s[0], Insert(b, s[1..]));
    }
  }

  /** `ksort` leaves the keys in strictly ascending order. */
  lemma {:induction false} KSortAscending(bs: seq<Bucket>)
    requires DistinctKeys(bs)
    ensures Ascending(KSort(bs))
  {
    if bs != [] {
      var rest := bs[1..];
      HeadKeyNotInTail(bs);
      KSortAscending(rest);
      PrioritiesOfPermutation(KSort(rest), rest);
      InsertAscending(bs[0], KSort(rest));
    }
  }

  lemma {:induction false} InsertLookup(b: Bucket, s: seq<Bucket>, q: int)
    requires b.priority !in Priorities(s)
    ensures Lookup(Insert(b, s), q) == if q == b.priority then b.callbacks else Lookup(s, q)
  {
    if s == [] || b.priority < s[0].priority {
      if q == b.priority {
      } else {
        assert ([b] + s)[1..] == s;
      }
    } else {
      assert s[0].priority in Priorities(s);
      assert Priorities(s[1..]) <= Priorities(s) by {
        forall x | x in Priorities(s[1..]) ensures x in Priorities(s) {
          var i :| 0 <= i < |s[1..]| && s[1..][i].priority == x;
          assert s[i + 1].priority == x;
        }
      }
      InsertLookup(b, s[1..], q);
      assert ([s[0]] + Insert(b, s[1..]))[1..] == Insert(b, s[1..]);
    }
  }

  /** `ksort` moves buckets but leaves each bucket's callbacks as they were. */
  lemma {:induction false} KSortLookup(bs: seq<Bucket>, q: int)
    requires DistinctKeys(bs)
    ensures Lookup(KSort(bs), q) == Lookup(bs, q)
  {
    if bs != [] {
      var rest := bs[1..];
      HeadKeyNotInTail(bs);
      KSortLookup(rest, q);
      PrioritiesOfPermutation(KSort(rest), rest);
      InsertLookup(bs[0], KSort(rest), q);
    }
  }

  /** An array whose keys are already ascending is left as it is. */
  lemma {:induction false} KSortOfAscending(bs: seq<Bucket>)
    requires Ascending(bs)
    ensures KSort(bs) == bs
  {
    if bs != [] {
      AscendingTail(bs);
      KSortOfAscending(bs[1..]);
      if |bs| > 1 {
        HeadIsLeast(bs, 1);
      }
      assert Insert(bs[0], bs[1..]) == [bs[0]] + bs[1..];
      assert [bs[0]] + bs[1..] == bs;
    }
  }

  lemma HeadIsLeast(bs: seq<Bucket>, k: nat)
    requires Ascending(bs) && k < |bs|
    ensures bs[0].priority <= bs[k].priority
    ensures bs[0].priority == bs[k].priority ==> k == 0
  {
  }

  lemma AscendingTail(bs: seq<Bucket>)
    requires bs != [] && Ascending(bs)
    ensures Ascending(bs[1..])
    ensures Above(bs[0].priority, bs[1..])
  {
    forall i, j | 0 <= i < j < |bs[1..]| ensures bs[1..][i].priority < bs[1..][j].priority {
      assert bs[1..][i] == bs[i + 1] && bs[1..][j] == bs[j + 1];
    }
    forall k | 0 <= k < |bs[1..]| ensures bs[0].priority < bs[1..][k].priority {
      assert bs[1..][k] == bs[k + 1];
    }
  }

  lemma MultisetTail(s: seq<Bucket>)
    requires s != []
    ensures multiset(s[1..]) == multiset(s) - multiset{s[0]}
  {
    assert s == [s[0]] + s[1..];
  }

  lemma PermutationMember(a: seq<Bucket>, b: seq<Bucket>, i: nat) returns (j: nat)
    requires multiset(a) == multiset(b) && i < |a|
    ensures j < |b| && b[j] == a[i]
  {
    assert a[i] in multiset(b);
    j :| 0 <= j < |b| && b[j] == a[i];
  }

  /** Two arrays with ascending keys that hold the same buckets are equal:
      any correct key sort yields `KSort`'s result. */
  lemma {:induction false} AscendingPermutationUnique(a: seq<Bucket>, b: seq<Bucket>)
    requires Ascending(a) && Ascending(b) && multiset(a) == multiset(b)
    ensures a == b
  {
    if a != [] {
      var k := PermutationMember(a, b, 0);
      var m := PermutationMember(b, a, 0);
      HeadIsLeast(a, m);
      HeadIsLeast(b, k);
      assert k == 0;
      MultisetTail(a);
      MultisetTail(b);
      AscendingTail(a);
      AscendingTail(b);
      AscendingPermutationUnique(a[1..], b[1..]);
      assert a == [a[0]] + a[1..];
      assert b == [b[0]] + b[1..];
    }
  }

  /** `ksort` is the only reordering of a handler array into ascending keys,
      and sorting twice is sorting once. */
  lemma KSortCharacterized(bs: seq<Bucket>, s: seq<Bucket>)
    requires DistinctKeys(bs)
    ensures Ascending(s) && multiset(s) == multiset(bs) ==> s == KSort(bs)
    ensures KSort(KSort(bs)) == KSort(bs)
  {
    KSortAscending(bs);
    KSortOfAscending(KSort(bs));
    if Ascending(s) && multiset(s) == multiset(bs) {
      AscendingPermutationUnique(s, KSort(bs));
    }
  }

  /** Sorting keeps a handler array well formed. */
  lemma KSortWellFormed(bs: seq<Bucket>)
    requires WellFormed(bs)
    ensures WellFormed(KSort(bs))
  {
    var r := KSort(bs);
    KSortAscending(bs);
    assert r[0] in multiset(bs);
    forall i | 0 <= i < |r| ensures r[i].callbacks != [] {
      assert r[i] in multiset(bs);
      var j :| 0 <= j < |bs| && bs[j] == r[i];
    }
  }

  /** The callbacks of a handler array in iteration order: bucket by bucket,
      and within a bucket in bind order. */
  function Flatten(bs: seq<Bucket>): seq<Callback> {
    if bs == [] then [] else bs[0].callbacks + Flatten(bs[1..])
  }

  lemma {:induction false} FlattenConcat(a: seq<Bucket>, b: seq<Bucket>)
    ensures Flatten(a + b) == Flatten(a) + Flatten(b)
  {
    if a != [] {
      assert (a + b)[1..] == a[1..] + b;
      FlattenConcat(a[1..], b);
    } else {
      assert a + b == b;
    }
  }

  /** The step of an iteration over the handler array: the prefix up to and
      including bucket `i` flattens to the prefix before it plus bucket `i`. */
  lemma FlattenPrefix(bs: seq<Bucket>, i: nat)
    requires i < |bs|
    ensures Flatten(bs[..i + 1]) == Flatten(bs[..i]) + bs[i].callbacks
  {
    assert bs[..i + 1] == bs[..i] + [bs[i]];
    FlattenConcat(bs[..i], [bs[i]]);
    assert Flatten([bs[i]]) == bs[i].callbacks + Flatten([]);
  }

  /** The callbacks of one bucket, each tagged with the bucket's priority. */
  function Tag(p: int, cs: seq<Callback>): (r: seq<Entry>)
    ensures |r| == |cs|
    ensures forall k :: 0 <= k < |cs| ==> r[k] == Entry(p, cs[k])
  {
    if cs == [] then [] else [Entry(p, cs[0])] + Tag(p, cs[1..])
  }

  /** The callbacks of a handler array in iteration order, each tagged with
      the priority it was bound at. */
  function Entries(bs: seq<Bucket>): seq<Entry> {
    if bs == [] then [] else Tag(bs[0].priority, bs[0].callbacks) + Entries(bs[1..])
  }

  /** The callbacks bound at priority `p`, in the order they occur. */
  function Select(es: seq<Entry>, p: int): seq<Callback> {
    if es == [] then []
    else (if es[0].priority == p then [es[0].callback] else []) + Select(es[1..], p)
  }

  lemma {:induction false} FlattenMatchesEntries(bs: seq<Bucket>)
    ensures |Flatten(bs)| == |Entries(bs)|
    ensures forall k :: 0 <= k < |Flatten(bs)| ==> Flatten(bs)[k] == Entries(bs)[k].callback
  {
    if bs != [] {
      FlattenMatchesEntries(bs[1..]);
      var t := Tag(bs[0].priority, bs[0].callbacks);
      forall k | 0 <= k < |Flatten(bs)| ensures Flatten(bs)[k] == Entries(bs)[k].callback {
        if k >= |t| {
          assert Flatten(bs)[k] == Flatten(bs[1..])[k - |t|];
          assert Entries(bs)[k] == Entries(bs[1..])[k - |t|];
        }
      }
    }
  }

  lemma {:induction false} EntriesPriorities(bs: seq<Bucket>)
    ensures forall k :: 0 <= k < |Entries(bs)| ==> Entries(bs)[k].priority in Priorities(bs)
  {
    if bs != [] {
      EntriesPriorities(bs[1..]);
      PrioritiesCons(bs[0], bs[1..]);
      assert [bs[0]] + bs[1..] == bs;
      var t := Tag(bs[0].priority, bs[0].callbacks);
      forall k | 0 <= k < |Entries(bs)| ensures Entries(bs)[k].priority in Priorities(bs) {
        if k >= |t| {
          assert Entries(bs)[k] == Entries(bs[1..])[k - |t|];
        }
      }
    }
  }

  /** Over buckets with ascending keys, iteration meets priorities in
      non-decreasing order. */
  lemma {:induction false} EntriesAscending(bs: seq<Bucket>)
    requires Ascending(bs)
    ensures forall i, j :: 0 <= i < j < |Entries(bs)| ==> Entries(bs)[i].priority <= Entries(bs)[j].priority
  {
    if bs != [] {
      var rest := bs[1..];
      AscendingTail(bs);
      EntriesAscending(rest);
      EntriesPriorities(rest);
      var t := Tag(bs[0].priority, bs[0].callbacks);
      var es := Entries(bs);
      assert es == t + Entries(rest);
      forall i, j | 0 <= i < j < |es| ensures es[i].priority <= es[j].priority {
        if j < |t| {
        } else if i < |t| {
          assert es[j] == Entries(rest)[j - |t|];
          var q := es[j].priority;
          assert q in Priorities(rest);
          var n :| 0 <= n < |rest| && rest[n].priority == q;
          assert rest[n] == bs[n + 1];
        } else {
          assert es[i] == Entries(rest)[i - |t|];
          assert es[j] == Entries(rest)[j - |t|];
        }
      }
    }
  }

  lemma {:induction false} SelectConcat(a: seq<Entry>, b: seq<Entry>, p: int)
    ensures Select(a + b, p) == Select(a, p) + Select(b, p)
  {
    if a != [] {
      assert (a + b)[1..] == a[1..] + b;
      SelectConcat(a[1..], b, p);
    } else {
      assert a + b == b;
    }
  }

  lemma {:induction false} SelectTag(q: int, cs: seq<Callback>, p: int)
    ensures Select(Tag(q, cs), p) == if q == p then cs else []
  {
    if cs != [] {
      SelectTag(q, cs[1..], p);
      assert Tag(q, cs)[1..] == Tag(q, cs[1..]);
      if q == p {
        assert cs == [cs[0]] + cs[1..];
      }
    }
  }

  lemma {:induction false} SelectAbsent(bs: seq<Bucket>, p: int)
    requires p !in Priorities(bs)
    ensures Select(Entries(bs), p) == []
  {
    if bs != [] {
      PrioritiesCons(bs[0], bs[1..]);
      assert [bs[0]] + bs[1..] == bs;
      SelectAbsent(bs[1..], p);
      SelectConcat(Tag(bs[0].priority, bs[0].callbacks), Entries(bs[1..]), p);
      SelectTag(bs[0].priority, bs[0].callbacks, p);
    }
  }

  /** Over a valid PHP array, the callbacks iteration meets at priority `p`
      are exactly bucket `p`, in bind order. */
  lemma {:induction false} SelectEntries(bs: seq<Bucket>, p: int)
    requires DistinctKeys(bs)
    ensures Select(Entries(bs), p) == Lookup(bs, p)
  {
    if bs != [] {
      HeadKeyNotInTail(bs);
      SelectConcat(Tag(bs[0].priority, bs[0].callbacks), Entries(bs[1..]), p);
      SelectTag(bs[0].priority, bs[0].callbacks, p);
      if bs[0].priority == p {
        SelectAbsent(bs[1..], p);
      } else {
        SelectEntries(bs[1..], p);
      }
    }
  }

  /** The order in which `fire` and `fireFilter` meet the callbacks of an
      event after `ksort`: every callback bound to the event exactly once,
      priorities non-decreasing, and within one priority in bind order. */
  lemma DispatchOrder(bs: seq<Bucket>)
    requires DistinctKeys(bs)
    ensures var es := Entries(KSort(bs));
      && |Flatten(KSort(bs))| == |es|
      && (forall k :: 0 <= k < |es| ==> Flatten(KSort(bs))[k] == es[k].callback)
      && (forall i, j :: 0 <= i < j < |es| ==> es[i].priority <= es[j].priority)
      && (forall p :: Select(es, p) == Lookup(bs, p))
  {
    var s := KSort(bs);
    KSortAscending(bs);
    FlattenMatchesEntries(s);
    EntriesAscending(s);
    forall p ensures Select(Entries(s), p) == Lookup(bs, p) {
      SelectEntries(s, p);
      KSortLookup(bs, p);
    }
  }
}
