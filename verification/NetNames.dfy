/** The rendered namespace names, and the two loops behind the boot sweep (network/natid.go). */
module NetNames {
  import opened Bytes
  import opened SlotStores
  import opened NetMachine

  const NS := "ns-"
  const HEX := "0123456789abcdef"

  predicate HasNs(name: string) { NS <= name }

  /** %0<width>x for values that fit. */
  function HexDigits(v: nat, width: nat): (s: string)
    ensures |s| == width
  {
    if width == 0 then "" else HexDigits(v / 16, width - 1) + [HEX[v % 16]]
  }

  function Pow16(width: nat): (p: nat)
    ensures p > 0
  {
    if width == 0 then 1 else 16 * Pow16(width - 1)
  }

  lemma {:induction false} HexDigitsInjective(a: nat, b: nat, width: nat)
    requires a < Pow16(width) && b < Pow16(width) && HexDigits(a, width) == HexDigits(b, width)
    ensures a == b
  {
    if width > 0 {
      var x, y := HexDigits(a, width), HexDigits(b, width);
      assert x[..width - 1] == HexDigits(a / 16, width - 1) && y[..width - 1] == HexDigits(b / 16, width - 1);
      assert x[width - 1] == HEX[a % 16] && y[width - 1] == HEX[b % 16];
      assert forall i, j :: 0 <= i < j < 16 ==> HEX[i] != HEX[j];
      HexDigitsInjective(a / 16, b / 16, width - 1);
    }
  }

  predicate IsHex(s: string) { forall k :: 0 <= k < |s| ==> s[k] in HEX }

  lemma {:induction false} HexDigitsAreHex(v: nat, width: nat)
    ensures IsHex(HexDigits(v, width))
  {
    if width > 0 {
      HexDigitsAreHex(v / 16, width - 1);
      assert HEX[v % 16] in HEX;
    }
  }

  /** Every string of hexadecimal digits is written for some value. */
  lemma {:induction false} HexDigitsOnto(s: string) returns (v: nat)
    requires IsHex(s)
    ensures v < Pow16(|s|) && HexDigits(v, |s|) == s
  {
    if s == "" {
      v := 0;
    } else {
      var n := |s| - 1;
      var q := HexDigitsOnto(s[..n]);
      var d :| 0 <= d < 16 && HEX[d] == s[n];
      v := 16 * q + d;
      assert v / 16 == q && v % 16 == d;
      assert s == s[..n] + [s[n]];
    }
  }

  function Render(m: NsName): string {
    match m
    case Pre(i) => NS + "p" + HexDigits(i, 8)
    case Sbx(short) => NS + short
    case Other(name) => name
  }

  /** A short id that reads like the name of a pool slot: p and eight hexadecimal digits. */
  predicate LooksPrebuilt(short: string) { |short| == 9 && short[0] == 'p' && IsHex(short[1..]) }

  /** Names as they occur: slot indices are 32-bit, foreign namespaces do not start with "ns-", and no sandbox id, which a
      caller may choose, reads like a pool slot. */
  predicate Renderable(m: NsName) {
    match m
    case Pre(i) => i < Pow16(8)
    case Sbx(short) => !LooksPrebuilt(short)
    case Other(name) => !HasNs(name)
  }

  /** A sandbox's namespace has the name of some pool slot's exactly when its short id reads like one. */
  lemma ClashIff(short: string)
    ensures (exists i: nat :: i < Pow16(8) && Render(Pre(i)) == Render(Sbx(short))) <==> LooksPrebuilt(short)
  {
    hide HexDigits, Pow16;
    if i: nat :| i < Pow16(8) && Render(Pre(i)) == Render(Sbx(short)) {
      assert Render(Pre(i)) == NS + ("p" + HexDigits(i, 8));
      assert Render(Pre(i))[3..] == "p" + HexDigits(i, 8) && Render(Sbx(short))[3..] == short;
      HexDigitsAreHex(i, 8);
      assert short[1..] == HexDigits(i, 8);
    }
    if LooksPrebuilt(short) {
      var v := HexDigitsOnto(short[1..]);
      assert short == "p" + short[1..];
      assert Render(Pre(v)) == Render(Sbx(short));
    }
  }

  /** Distinct names of the machine are distinct strings, and the "ns-" prefix tells the agent's from the others. */
  lemma RenderFaithful(a: NsName, b: NsName)
    requires Renderable(a) && Renderable(b)
    ensures Render(a) == Render(b) <==> a == b
    ensures HasNs(Render(a)) <==> IsNs(a)
  {
    hide HexDigits, Pow16, LooksPrebuilt;
    var x, y := Render(a), Render(b);
    if a.Pre? && b.Pre? && x == y {
      assert x[4..] == HexDigits(a.idx, 8) && y[4..] == HexDigits(b.idx, 8);
      HexDigitsInjective(a.idx, b.idx, 8);
    } else if a.Sbx? && b.Sbx? {
      assert x[3..] == a.short && y[3..] == b.short;
    } else if a.Pre? && b.Sbx? {
      ClashIff(b.short);
    } else if a.Sbx? && b.Pre? {
      ClashIff(a.short);
    }
  }

  // ---- the keep-set ----

  /** GetAllocationJSON: no row, a read error, or the recorded TAP ("" when the row does not parse). */
  datatype Lookup = NoRow | ReadError | Row(tap: string)

  ghost predicate Keeps(ids: seq<Id>, rows: map<Id, Lookup>, name: string) {
    HasNs(name) && exists id :: id in ids && id in rows && rows[id] == Row(name)
  }

  /** Either every live sandbox's row was read and the set holds exactly their "ns-" names, or one could not be read
      and there is no set. */
  method LiveNetnsNames(ids: seq<Id>, rows: map<Id, Lookup>) returns (keep: set<string>, ok: bool)
    requires forall id :: id in ids ==> id in rows
    ensures ok <==> forall id :: id in ids ==> !rows[id].ReadError?
    ensures ok ==> forall name :: name in keep <==> Keeps(ids, rows, name)
    ensures !ok ==> keep == {}
  {
    keep := {};
    for k := 0 to |ids|
      invariant forall j :: 0 <= j < k ==> !rows[ids[j]].ReadError?
      invariant forall name :: name in keep <==> Keeps(ids[..k], rows, name)
    {
      assert ids[..k + 1] == ids[..k] + [ids[k]];
      match rows[ids[k]]
      case NoRow =>
      case ReadError => return {}, false;
      case Row(tap) =>
        if HasNs(tap) {
          keep := keep + {tap};
        }
    }
    assert ids[..|ids|] == ids;
    ok := true;
  }

  // ---- the sweep list ----

  function Orphans(all: seq<string>, keep: set<string>): seq<string> {
    if all == [] then []
    else
      var rest, name := Orphans(all[..|all| - 1], keep), all[|all| - 1];
      if HasNs(name) && name !in keep then rest + [name] else rest
  }

  method OrphanNetnsToSweep(all: seq<string>, keep: set<string>) returns (del: seq<string>)
    ensures del == Orphans(all, keep)
  {
    del := [];
    for k := 0 to |all|
      invariant del == Orphans(all[..k], keep)
    {
      assert all[..k + 1][..k] == all[..k];
      if !HasNs(all[k]) || all[k] in keep {
        continue;
      }
      del := del + [all[k]];
    }
    assert all[..|all|] == all;
  }

  lemma {:induction false} OrphansAre(all: seq<string>, keep: set<string>, name: string)
    ensures name in Orphans(all, keep) <==> name in all && HasNs(name) && name !in keep
  {
    if all != [] {
      OrphansAre(all[..|all| - 1], keep, name);
      assert all == all[..|all| - 1] + [all[|all| - 1]];
    }
  }

  /** The string sweep and the machine's: over the same namespaces and the same kept names, a name is listed for
      deletion exactly when the machine's ListNs step puts it in its to-do set. */
  lemma SweepListIsTodo(u: set<Id>, n: Net, all: seq<string>, keep: set<string>, m: NsName)
    requires n.phase.Kept?
    requires forall x :: x in n.kernel || x in n.phase.keep ==> Renderable(x)
    requires forall s :: s in all <==> exists x :: x in n.kernel && Render(x) == s
    requires forall s :: s in keep <==> exists x :: x in n.phase.keep && Render(x) == s
    requires Renderable(m)
    ensures Render(m) in Orphans(all, keep) <==> m in Step(u, n, ListNs).phase.todo
  {
    OrphansAre(all, keep, Render(m));
    RenderFaithful(m, m);
    if Render(m) in all {
      var x :| x in n.kernel && Render(x) == Render(m);
      RenderFaithful(x, m);
    }
    if Render(m) in keep {
      var x :| x in n.phase.keep && Render(x) == Render(m);
      RenderFaithful(x, m);
    }
  }
}
