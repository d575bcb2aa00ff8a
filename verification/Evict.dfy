/** LRU eviction of shared cache directories (diskstream/sharedcache.go, evictSharedLRU). */
module Evict {
  /** A directory entry under the cache root: allocated bytes, and the bitmap's (else the directory's) mtime. */
  datatype Entry = Entry(name: string, isDir: bool, bytes: nat, mtime: int)

  const PREFIX := "disk-"

  predicate IsCache(e: Entry) { e.isDir && PREFIX <= e.name }

  predicate MayGo(e: Entry, live: set<string>) { IsCache(e) && e.name !in live }

  ghost predicate Distinct(es: seq<Entry>) { forall i, j :: 0 <= i < j < |es| ==> es[i].name != es[j].name }

  ghost predicate OldestFirst(es: seq<Entry>) { forall i, j :: 0 <= i < j < |es| ==> es[i].mtime <= es[j].mtime }

  /** Bytes held by cache directories. */
  function Held(es: seq<Entry>): nat {
    if es == [] then 0 else Held(es[..|es| - 1]) + if IsCache(es[|es| - 1]) then es[|es| - 1].bytes else 0
  }

  /** Only directories whose names begin with "disk-" count; the memory cache may share the root. */
  lemma HeldCounts(es: seq<Entry>, e: Entry)
    ensures Held([]) == 0
    ensures Held(es + [e]) == Held(es) + if e.isDir && |e.name| >= 5 && e.name[..5] == "disk-" then e.bytes else 0
  {
    assert (es + [e])[..|es|] == es;
  }

  function Candidates(es: seq<Entry>, live: set<string>): (c: seq<Entry>)
    ensures forall e :: e in c <==> e in es && MayGo(e, live)
  {
    if es == [] then []
    else
      var c, e := Candidates(es[..|es| - 1], live), es[|es| - 1];
      assert es == es[..|es| - 1] + [e];
      if MayGo(e, live) then c + [e] else c
  }

  function Without(es: seq<Entry>, e: Entry): (r: seq<Entry>)
    ensures forall x :: x in r <==> x in es && x != e
  {
    if es == [] then []
    else
      var r, x := Without(es[..|es| - 1], e), es[|es| - 1];
      assert es == es[..|es| - 1] + [x];
      if x == e then r else r + [x]
  }

  lemma {:induction false} WithoutAbsent(es: seq<Entry>, e: Entry)
    requires e !in es
    ensures Without(es, e) == es
  {
    if es != [] {
      WithoutAbsent(es[..|es| - 1], e);
    }
  }

  /** Removing an entry keeps names distinct and lowers the bytes held by its own, if it is a cache directory. */
  lemma {:induction false} WithoutDistinct(es: seq<Entry>, e: Entry)
    requires Distinct(es)
    ensures Distinct(Without(es, e))
    ensures Held(Without(es, e)) + (if e in es && IsCache(e) then e.bytes else 0) == Held(es)
  {
    if es != [] {
      var n := |es| - 1;
      var rest, last := es[..n], es[n];
      assert es == rest + [last];
      assert last !in rest by { LastIsNew(rest, last); }
      if last == e {
        WithoutAbsent(rest, e);
      } else {
        hide Distinct;
        assert Distinct(rest) by { LastIsNew(rest, last); }
        WithoutDistinct(rest, e);
        KeepLast(rest, Without(rest, e), last);
      }
    }
  }

  lemma LastIsNew(rest: seq<Entry>, last: Entry)
    requires Distinct(rest + [last])
    ensures Distinct(rest) && last !in rest
  {
    var s := rest + [last];
    forall j | 0 <= j < |rest| ensures rest[j].name != last.name {
      assert s[j].name != s[|rest|].name;
    }
    forall i, j | 0 <= i < j < |rest| ensures rest[i].name != rest[j].name {
      assert s[i].name != s[j].name;
    }
  }

  /** Appending an entry whose name is new. */
  lemma KeepLast(rest: seq<Entry>, r: seq<Entry>, last: Entry)
    requires Distinct(rest + [last]) && Distinct(r) && forall x :: x in r ==> x in rest
    ensures Distinct(r + [last]) && Held(r + [last]) == Held(r) + if IsCache(last) then last.bytes else 0
  {
    var s := rest + [last];
    assert (r + [last])[..|r|] == r;
    forall i | 0 <= i < |r| ensures r[i].name != last.name {
      assert r[i] in rest;
      var j :| 0 <= j < |rest| && rest[j] == r[i];
      assert s[j].name != s[|rest|].name;
    }
  }

  function InsertByAge(s: seq<Entry>, e: Entry): (r: seq<Entry>)
    ensures multiset(r) == multiset(s) + multiset{e}
    ensures |r| > 0 && (r[|r| - 1] == e || (s != [] && r[|r| - 1] == s[|s| - 1]))
  {
    if s == [] || s[|s| - 1].mtime <= e.mtime then s + [e]
    else
      assert s == s[..|s| - 1] + [s[|s| - 1]];
      InsertByAge(s[..|s| - 1], e) + [s[|s| - 1]]
  }

  lemma {:induction false} InsertKeepsOrder(s: seq<Entry>, e: Entry)
    requires OldestFirst(s)
    ensures OldestFirst(InsertByAge(s, e))
  {
    if s != [] && s[|s| - 1].mtime > e.mtime {
      InsertKeepsOrder(s[..|s| - 1], e);
    }
  }

  /** sort.Slice by mtime: an oldest-first order of the same entries. */
  method SortByAge(es: seq<Entry>) returns (s: seq<Entry>)
    ensures OldestFirst(s) && multiset(s) == multiset(es)
  {
    s := [];
    for k := 0 to |es|
      invariant OldestFirst(s) && multiset(s) == multiset(es[..k])
    {
      assert es[..k + 1] == es[..k] + [es[k]];
      InsertKeepsOrder(s, es[k]);
      s := InsertByAge(s, es[k]);
    }
    assert es[..|es|] == es;
  }

  lemma {:induction false} AtMostOnce(es: seq<Entry>, e: Entry)
    requires Distinct(es)
    ensures multiset(es)[e] <= 1
  {
    if es != [] {
      var n := |es| - 1;
      AtMostOnce(es[..n], e);
      assert es == es[..n] + [es[n]];
      if es[n] == e {
        assert e !in es[..n];
      }
    }
  }

  lemma Twice(b: seq<Entry>, i: nat, j: nat)
    requires i < j < |b|
    ensures b[i] == b[j] ==> multiset(b)[b[i]] >= 2
  {
    assert b == b[..j] + b[j..] && b[..j][i] == b[i] && b[j..][0] == b[j];
    assert multiset(b) == multiset(b[..j]) + multiset(b[j..]);
  }

  /** Reordering keeps names distinct. */
  lemma DistinctReordered(a: seq<Entry>, b: seq<Entry>)
    requires Distinct(a) && multiset(a) == multiset(b)
    ensures Distinct(b)
  {
    SameElements(a, b);
    forall i, j | 0 <= i < j < |b| ensures b[i].name != b[j].name {
      assert b[i] in a && b[j] in a;
      AtMostOnce(a, b[i]);
      Twice(b, i, j);
    }
  }

  lemma {:induction false} CandidatesDistinct(es: seq<Entry>, live: set<string>)
    requires Distinct(es)
    ensures Distinct(Candidates(es, live))
  {
    if es != [] {
      var n := |es| - 1;
      CandidatesDistinct(es[..n], live);
      var c := Candidates(es[..n], live);
      forall i | 0 <= i < |c| ensures c[i].name != es[n].name {
        assert c[i] in es[..n];
      }
    }
  }

  lemma SameElements(a: seq<Entry>, b: seq<Entry>)
    requires multiset(a) == multiset(b)
    ensures |a| == |b| && forall e :: e in a <==> e in b
  {
    assert |a| == |multiset(a)| == |multiset(b)| == |b|;
    forall e ensures e in a <==> e in b {
      assert e in a <==> e in multiset(a);
      assert e in b <==> e in multiset(b);
    }
  }

  /** What is left after the removals that succeeded. */
  function Left(es: seq<Entry>, order: seq<Entry>, gone: seq<bool>): seq<Entry>
    requires |gone| <= |order|
  {
    if gone == [] then es
    else
      var k := |gone| - 1;
      var l := Left(es, order, gone[..k]);
      if gone[k] then Without(l, order[k]) else l
  }

  lemma {:induction false} LeftIs(es: seq<Entry>, order: seq<Entry>, gone: seq<bool>)
    requires |gone| <= |order|
    ensures forall e :: e in Left(es, order, gone) <==>
              e in es && !exists j :: 0 <= j < |gone| && gone[j] && order[j] == e
  {
    if gone != [] {
      var k := |gone| - 1;
      LeftIs(es, order, gone[..k]);
      var l := Left(es, order, gone[..k]);
      forall e ensures e in Left(es, order, gone) <==> e in es && !exists j :: 0 <= j < |gone| && gone[j] && order[j] == e {
        if exists j :: 0 <= j < |gone| && gone[j] && order[j] == e {
          var j :| 0 <= j < |gone| && gone[j] && order[j] == e;
          assert j < k ==> gone[..k][j];
        } else if gone[k] {
          assert order[k] != e;
        }
        if j :| 0 <= j < |gone[..k]| && gone[..k][j] && order[j] == e {
          assert gone[j] && order[j] == e;
        }
      }
    }
  }

  /** The cache root. A removal may fail; `tried` is how the removals went so far. */
  class Root {
    var entries: seq<Entry>
    ghost var tried: seq<bool>

    constructor (entries: seq<Entry>)
      ensures this.entries == entries && tried == []
    {
      this.entries, tried := entries, [];
    }

    /** os.RemoveAll. */
    method Remove(e: Entry) returns (ok: bool)
      modifies this
      ensures tried == old(tried) + [ok] && entries == if ok then Without(old(entries), e) else old(entries)
    {
      ok := *;
      tried := tried + [ok];
      entries := if ok then Without(entries, e) else entries;
    }
  }

  /** The directory walk: bytes of every cache directory, and those that are not open. */
  method Survey(es: seq<Entry>, live: set<string>) returns (total: nat, evictable: seq<Entry>)
    ensures total == Held(es) && evictable == Candidates(es, live)
    ensures forall e :: e in evictable <==>
              e in es && e.isDir && |e.name| >= 5 && e.name[..5] == "disk-" && e.name !in live
  {
    total, evictable := 0, [];
    for k := 0 to |es|
      invariant total == Held(es[..k]) && evictable == Candidates(es[..k], live)
    {
      assert es[..k + 1][..k] == es[..k];
      var e := es[k];
      if !e.isDir || |e.name| < 5 || e.name[..5] != PREFIX {
        continue;
      }
      total := total + e.bytes;
      if e.name in live {
        continue;
      }
      evictable := evictable + [e];
    }
    assert es[..|es|] == es;
  }

  /** The removal loop. `gone` is how its removals went. */
  method RemoveUntilFits(root: Root, order: seq<Entry>, held: nat, maxBytes: int) returns (gone: seq<bool>)
    requires Distinct(root.entries) && Distinct(order) && held == Held(root.entries)
    requires forall e :: e in order ==> e in root.entries && IsCache(e)
    modifies root
    ensures |gone| <= |order| && root.entries == Left(old(root.entries), order, gone) && root.tried == old(root.tried) + gone
    ensures Distinct(root.entries)
    ensures forall j :: 0 <= j < |gone| ==> Held(Left(old(root.entries), order, gone[..j])) > maxBytes
    ensures Held(root.entries) <= maxBytes || |gone| == |order|
  {
    hide Held, Distinct, Without;
    var total := held;
    ghost var es := root.entries;
    gone := [];
    for k := 0 to |order|
      invariant |gone| == k && root.entries == Left(es, order, gone) && Distinct(root.entries) && total == Held(root.entries)
      invariant root.tried == old(root.tried) + gone
      invariant forall j :: 0 <= j < k ==> Held(Left(es, order, gone[..j])) > maxBytes
      invariant forall j :: k <= j < |order| ==> order[j] in root.entries
    {
      if total <= maxBytes {
        return;
      }
      var c := order[k];
      WithoutDistinct(root.entries, c);
      NotAgain(order, k);
      var removed := root.Remove(c);
      if removed {
        total := total - c.bytes;
      }
      ghost var was := gone;
      gone := gone + [removed];
      assert gone[..k] == was;
      assert forall j :: 0 <= j < k ==> gone[..j] == was[..j];
    }
  }

  lemma NotAgain(order: seq<Entry>, k: nat)
    requires Distinct(order) && k < |order|
    ensures forall j :: k < j < |order| ==> order[j] != order[k]
  {
  }

  /** evictSharedLRU: `order` is the eviction order and gone[j] whether removing order[j] succeeded. Every removal tried
      was needed at that moment, and it stops when the rest fits or nothing is left to try. */
  method EvictSharedLRU(root: Root, live: set<string>, maxBytes: int) returns (order: seq<Entry>, gone: seq<bool>)
    requires Distinct(root.entries)
    modifies root
    ensures Outcome(old(root.entries), live, maxBytes, order, gone)
    ensures root.entries == Left(old(root.entries), order, gone) && root.tried == old(root.tried) + gone
    ensures forall e :: e in old(root.entries) ==>
              e in root.entries || (e.isDir && |e.name| >= 5 && e.name[..5] == "disk-" && e.name !in live)
  {
    ghost var es := root.entries;
    var total, evictable := Survey(root.entries, live);
    order := SortByAge(evictable);
    SameElements(order, evictable);
    CandidatesDistinct(es, live);
    DistinctReordered(evictable, order);
    if total <= maxBytes {
      return order, [];
    }
    gone := RemoveUntilFits(root, order, total, maxBytes);
    forall e | e in es && e !in root.entries
      ensures e.isDir && |e.name| >= 5 && e.name[..5] == "disk-" && e.name !in live
    {
      LiveAndForeignStay(es, live, order, gone, e);
    }
  }

  /** Open caches and whatever is not a directory named "disk-..." survive, and nothing else appears. */
  lemma LiveAndForeignStay(es: seq<Entry>, live: set<string>, order: seq<Entry>, gone: seq<bool>, e: Entry)
    requires multiset(order) == multiset(Candidates(es, live)) && |gone| <= |order|
    ensures e in es && (!e.isDir || |e.name| < 5 || e.name[..5] != "disk-" || e.name in live) ==> e in Left(es, order, gone)
    ensures e in Left(es, order, gone) ==> e in es
  {
    SameElements(order, Candidates(es, live));
    LeftIs(es, order, gone);
    if j :| 0 <= j < |gone| && gone[j] && order[j] == e {
      assert order[j] in Candidates(es, live);
    }
  }

  /** A directory is removed only after every strictly older candidate was tried. */
  lemma OldestGoFirst(es: seq<Entry>, live: set<string>, order: seq<Entry>, gone: seq<bool>, elder: Entry, young: Entry)
    requires OldestFirst(order) && multiset(order) == multiset(Candidates(es, live)) && |gone| <= |order|
    requires elder in es && elder.isDir && |elder.name| >= 5 && elder.name[..5] == "disk-" && elder.name !in live
    requires young in es && elder.mtime < young.mtime
    requires young !in Left(es, order, gone)
    ensures exists i :: 0 <= i < |gone| && order[i] == elder
    ensures (forall j :: 0 <= j < |gone| ==> gone[j]) ==> elder !in Left(es, order, gone)
  {
    assert elder in Candidates(es, live);
    SameElements(order, Candidates(es, live));
    hide Left, Candidates, MayGo, IsCache, OldestFirst;
    LeftIs(es, order, gone);
    var j :| 0 <= j < |gone| && gone[j] && order[j] == young;
    var i :| 0 <= i < |order| && order[i] == elder;
    Earlier(order, i, j);
  }

  lemma Earlier(order: seq<Entry>, i: nat, j: nat)
    requires OldestFirst(order) && i < |order| && j < |order| && order[i].mtime < order[j].mtime
    ensures i < j
  {
  }

  /** What evictSharedLRU may do with a directory: an outcome its contract allows. */
  ghost predicate Outcome(es: seq<Entry>, live: set<string>, maxBytes: int, order: seq<Entry>, gone: seq<bool>) {
    && OldestFirst(order) && multiset(order) == multiset(Candidates(es, live)) && |gone| <= |order|
    && (forall j :: 0 <= j < |gone| ==> Held(Left(es, order, gone[..j])) > maxBytes)
    && (Held(Left(es, order, gone)) <= maxBytes || |gone| == |order|)
  }

  /** Some eviction removes e. */
  ghost predicate Removable(e: Entry, live: set<string>) {
    exists es, maxBytes, order, gone ::
      Distinct(es) && e in es && Outcome(es, live, maxBytes, order, gone) && e !in Left(es, order, gone)
  }

  /** `live` is a snapshot, and only what is in it is safe: an entry can be removed exactly when it is a directory named
      "disk-..." and its name is not in the snapshot, so also when it is opened after the snapshot was taken. */
  lemma RemovableIff(e: Entry, live: set<string>)
    ensures Removable(e, live) <==> e.isDir && |e.name| >= 5 && e.name[..5] == "disk-" && e.name !in live
  {
    if Removable(e, live) {
      var es, maxBytes, order, gone :|
        Distinct(es) && e in es && Outcome(es, live, maxBytes, order, gone) && e !in Left(es, order, gone);
      LiveAndForeignStay(es, live, order, gone, e);
    }
    if MayGo(e, live) {
      LateOpenMayGo(e, live);
    }
  }

  /** The directory is the only one and the budget is below its size. */
  lemma LateOpenMayGo(e: Entry, live: set<string>)
    requires MayGo(e, live)
    ensures Distinct([e]) && Outcome([e], live, e.bytes - 1, [e], [true]) && Left([e], [e], [true]) == []
  {
    assert [e][..0] == [] && [true][..0] == [];
    assert Candidates([], live) == [] && Candidates([e], live) == [e];
    assert Left([e], [e], []) == [e];
    assert Without([], e) == [];
    assert Held([]) == 0 && Held([e]) == e.bytes;
  }
}
