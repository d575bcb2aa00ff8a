/** The slot ledger: one row per /30 index, each free or with exactly one owner (slotstore/slotstore.go). */
module SlotStores {
  import opened Bytes

  type Id = string

  /** A sandbox, or the "prebuilt:<idx>" sentinel. */
  datatype Owner = Sandbox(id: Id) | Prebuilt(idx: nat)

  type Rows = seq<Option<Owner>>

  /** The lowest index at or above k whose row is `what`; |rows| when there is none. */
  function Lowest(rows: Rows, what: Option<Owner>, k: nat): (i: nat)
    requires k <= |rows|
    ensures k <= i <= |rows|
    ensures i < |rows| ==> rows[i] == what
    ensures forall j :: k <= j < i ==> rows[j] != what
    decreases |rows| - k
  {
    if k == |rows| || rows[k] == what then k else Lowest(rows, what, k + 1)
  }

  /** Claim: the slot the owner already has, else the lowest free one, else none. */
  function ClaimIdx(rows: Rows, id: Id): Option<nat> {
    var mine := Lowest(rows, Some(Sandbox(id)), 0);
    var free := Lowest(rows, None, 0);
    if mine < |rows| then Some(mine) else if free < |rows| then Some(free) else None
  }

  function Release(rows: Rows, o: Owner): (r: Rows)
    ensures |r| == |rows|
    ensures forall i :: 0 <= i < |rows| ==> r[i] == if rows[i] == Some(o) then None else rows[i]
  {
    seq(|rows|, i requires 0 <= i < |rows| => if rows[i] == Some(o) then None else rows[i])
  }

  /** Reconcile keeps the rows of live sandboxes; sentinels are never in the live list. */
  function Reconcile(rows: Rows, live: set<Id>): (r: Rows)
    ensures |r| == |rows|
    ensures forall i :: 0 <= i < |rows| ==>
      r[i] == if rows[i].Some? && rows[i].value.Sandbox? && rows[i].value.id in live then rows[i] else None
  {
    seq(|rows|, i requires 0 <= i < |rows| =>
      if rows[i].Some? && rows[i].value.Sandbox? && rows[i].value.id in live then rows[i] else None)
  }

  /** No sandbox owns two slots, and a sentinel sits on its own row. */
  ghost predicate SingleOwner(rows: Rows) {
    && (forall i, j :: 0 <= i < |rows| && 0 <= j < |rows| && rows[i].Some? && rows[i] == rows[j] ==> i == j)
    && (forall i :: 0 <= i < |rows| && rows[i].Some? && rows[i].value.Prebuilt? ==> rows[i].value.idx == i)
  }

  class SlotStore {
    var rows: Rows

    ghost predicate Valid()
      reads this
    {
      SingleOwner(rows)
    }

    constructor Seed(capacity: nat)
      ensures Valid() && |rows| == capacity && forall i :: 0 <= i < |rows| ==> rows[i].None?
    {
      rows := seq(capacity, _ => None);
    }

    /** SELECT idx WHERE sandbox_id = ... ORDER BY idx LIMIT 1. */
    method Find(what: Option<Owner>) returns (i: nat)
      ensures i == Lowest(rows, what, 0)
    {
      i := 0;
      while i < |rows| && rows[i] != what
        invariant i <= |rows| && forall j :: 0 <= j < i ==> rows[j] != what
        invariant Lowest(rows, what, 0) == Lowest(rows, what, i)
      {
        i := i + 1;
      }
    }

    /** Claim: a second claim by the same sandbox returns the slot it has. */
    method Claim(id: Id) returns (r: Option<nat>)
      requires Valid()
      modifies this
      ensures Valid() && r == ClaimIdx(old(rows), id)
      ensures rows == if r.Some? then old(rows)[r.value := Some(Sandbox(id))] else old(rows)
      ensures r.Some? ==> if Some(Sandbox(id)) in old(rows) then old(rows)[r.value] == Some(Sandbox(id))
        else old(rows)[r.value].None? && forall j :: 0 <= j < r.value ==> old(rows)[j].Some?
      ensures r.None? <==> (forall i :: 0 <= i < |rows| ==> old(rows)[i].Some? && old(rows)[i] != Some(Sandbox(id)))
    {
      var mine := Find(Some(Sandbox(id)));
      if mine < |rows| { return Some(mine); }
      var free := Find(None);
      if free == |rows| { return None; }
      rows := rows[free := Some(Sandbox(id))];
      return Some(free);
    }

    /** ClaimPrebuilt: the lowest free slot, under its own sentinel. */
    method ClaimPrebuilt() returns (r: Option<nat>)
      requires Valid()
      modifies this
      ensures Valid() && (r.Some? <==> Lowest(old(rows), None, 0) < |old(rows)|)
      ensures r.Some? ==> r.value == Lowest(old(rows), None, 0) && rows == old(rows)[r.value := Some(Prebuilt(r.value))]
      ensures r.Some? ==> old(rows)[r.value].None? && forall j :: 0 <= j < r.value ==> old(rows)[j].Some?
      ensures r.None? ==> forall j :: 0 <= j < |rows| ==> rows[j].Some?
      ensures r.None? ==> rows == old(rows)
    {
      var free := Find(None);
      if free == |rows| { return None; }
      rows := rows[free := Some(Prebuilt(free))];
      return Some(free);
    }

    /** Reassign: the sentinel's slot goes to the sandbox in one step, or nothing happens. */
    method Reassign(idx: nat, id: Id) returns (ok: bool)
      requires Valid() && idx < |rows|
      modifies this
      ensures ok == (old(rows)[idx] == Some(Prebuilt(idx)))
      ensures Valid() <==> !ok || Some(Sandbox(id)) !in old(rows)
      ensures rows == if ok then old(rows)[idx := Some(Sandbox(id))] else old(rows)
    {
      if rows[idx] != Some(Prebuilt(idx)) { return false; }
      ReassignSingleIff(rows, idx, id);
      rows := rows[idx := Some(Sandbox(id))];
      return true;
    }

    /** Release: at most one row is freed, and the result says whether this call freed it. */
    method Free(o: Owner) returns (ok: bool)
      requires Valid()
      modifies this
      ensures Valid() && rows == Release(old(rows), o) && ok == (Some(o) in old(rows))
    {
      var i := Find(Some(o));
      if i == |rows| {
        assert rows == Release(rows, o);
        return false;
      }
      assert rows[i := None] == Release(rows, o);
      rows := rows[i := None];
      return true;
    }

    /** Reconcile: the scan over owned rows; n is how many it freed. */
    method Reclaim(live: set<Id>) returns (n: nat)
      requires Valid()
      modifies this
      ensures Valid() && rows == Reconcile(old(rows), live)
      ensures forall i :: 0 <= i < |rows| ==>
        rows[i] == if old(rows)[i].Some? && old(rows)[i].value.Sandbox? && old(rows)[i].value.id in live then old(rows)[i] else None
      ensures n == Owned(old(rows)) - Owned(rows)
    {
      n := 0;
      ghost var was := rows;
      for i := 0 to |rows|
        invariant |rows| == |was| && n == Owned(was) - Owned(rows)
        invariant forall j :: 0 <= j < |rows| ==> rows[j] == if j < i then Reconcile(was, live)[j] else was[j]
      {
        if rows[i].Some? && !(rows[i].value.Sandbox? && rows[i].value.id in live) {
          OwnedLess(rows, i);
          rows := rows[i := None];
          n := n + 1;
        }
      }
      assert rows == Reconcile(was, live);
    }
  }

  /** How many rows have an owner. */
  function Owned(rows: Rows): nat {
    if rows == [] then 0 else Owned(rows[..|rows| - 1]) + if rows[|rows| - 1].Some? then 1 else 0
  }

  lemma {:induction false} OwnedLess(rows: Rows, i: nat)
    requires i < |rows| && rows[i].Some?
    ensures Owned(rows[i := None]) == Owned(rows) - 1
  {
    var n := |rows| - 1;
    if i == n {
      assert rows[i := None][..n] == rows[..n];
    } else {
      OwnedLess(rows[..n], i);
      assert rows[i := None][..n] == rows[..n][i := None];
    }
  }

  /** A fresh claim is free and keeps ownership single; a repeated claim returns the slot already held. */
  lemma ClaimKeepsSingle(rows: Rows, id: Id)
    requires SingleOwner(rows) && ClaimIdx(rows, id).Some?
    ensures var i := ClaimIdx(rows, id).value;
      && i < |rows| && (rows[i].None? || rows[i] == Some(Sandbox(id)))
      && (rows[i].None? ==> forall j :: 0 <= j < |rows| ==> rows[j] != Some(Sandbox(id)))
      && SingleOwner(rows[i := Some(Sandbox(id))])
  {
  }

  /** Nothing in the ledger stops a sandbox from owning two rows: adoption keeps ownership single exactly when the
      sandbox had no slot before. */
  lemma ReassignSingleIff(rows: Rows, idx: nat, id: Id)
    requires SingleOwner(rows) && idx < |rows| && rows[idx] == Some(Prebuilt(idx))
    ensures SingleOwner(rows[idx := Some(Sandbox(id))]) <==> Some(Sandbox(id)) !in rows
  {
    var after := rows[idx := Some(Sandbox(id))];
    if i :| 0 <= i < |rows| && rows[i] == Some(Sandbox(id)) {
      assert after[i] == after[idx] && i != idx;
    }
  }
}
