/** The portal's grid of people against terminals, and its totals. */
module Overview {
  import opened Base
  import opened DeviceSync
  import opened SyncTables

  datatype StateRow = StateRow(kind: Kind, person: string, device: string, presence: Presence)

  datatype Someone = Someone(kind: Kind, id: string)

  datatype Totals = Totals(synced: nat, pending: nat, manual: nat, missing: nat)

  function KindText(kind: Kind): string {
    if kind == Account then "account" else "dependant"
  }

  /** The key under which a state is looked up. */
  function KeyText(kind: Kind, person: string, device: string): string {
    KindText(kind) + "|" + person + "|" + device
  }

  function Lookup(rows: seq<StateRow>): map<string, Presence> {
    if rows == [] then map[]
    else
      var last := rows[|rows| - 1];
      Lookup(rows[..|rows| - 1])[KeyText(last.kind, last.person, last.device) := last.presence]
  }

  /** Never sent at all is missing. */
  function Shown(lookup: map<string, Presence>, p: Someone, device: string): Presence {
    var key := KeyText(p.kind, p.id, device);
    if key in lookup then lookup[key] else Missing
  }

  /** The state shown for a person on a terminal. */
  type Shower = (Someone, string) -> Presence

  function ShownIn(lookup: map<string, Presence>): Shower {
    (p: Someone, device: string) => Shown(lookup, p, device)
  }

  function CountOne(t: Totals, presence: Presence): Totals {
    match presence
    case Synced => t.(synced := t.synced + 1)
    case Awaiting => t.(pending := t.pending + 1)
    case ByHand => t.(manual := t.manual + 1)
    case Removed => t
    case Missing => t.(missing := t.missing + 1)
  }

  function TotalsOf(show: Shower, people: seq<Someone>, device: string): Totals {
    if people == [] then Totals(0, 0, 0, 0)
    else CountOne(TotalsOf(show, people[..|people| - 1], device), show(people[|people| - 1], device))
  }

  /** How many people a terminal is shown in one state with. */
  function HowMany(show: Shower, people: seq<Someone>, device: string, presence: Presence): nat {
    if people == [] then 0
    else
      HowMany(show, people[..|people| - 1], device, presence)
      + (if show(people[|people| - 1], device) == presence then 1 else 0)
  }

  /** The same over all terminals. */
  function HowManyInAll(show: Shower, people: seq<Someone>, devices: seq<Device>, presence: Presence): nat {
    if devices == [] then 0
    else
      HowManyInAll(show, people, devices[..|devices| - 1], presence)
      + HowMany(show, people, devices[|devices| - 1].id, presence)
  }

  function Plus(a: Totals, b: Totals): Totals {
    Totals(a.synced + b.synced, a.pending + b.pending, a.manual + b.manual, a.missing + b.missing)
  }

  function SumOver(show: Shower, people: seq<Someone>, devices: seq<Device>): Totals {
    if devices == [] then Totals(0, 0, 0, 0)
    else Plus(SumOver(show, people, devices[..|devices| - 1]), TotalsOf(show, people, devices[|devices| - 1].id))
  }

  function RowTotals(show: Shower, p: Someone, devices: seq<Device>): Totals {
    if devices == [] then Totals(0, 0, 0, 0)
    else CountOne(RowTotals(show, p, devices[..|devices| - 1]), show(p, devices[|devices| - 1].id))
  }

  /** Each terminal's counts are over all people, and the totals are the sums of the terminals'. */
  method DeviceSyncOverview(devices: seq<Device>, people: seq<Someone>, rows: seq<StateRow>)
    returns (perDevice: seq<Totals>, totals: Totals)
    ensures |perDevice| == |devices|
    ensures forall k :: 0 <= k < |devices| ==> perDevice[k] == TotalsOf(ShownIn(Lookup(rows)), people, devices[k].id)
    ensures totals == SumOver(ShownIn(Lookup(rows)), people, devices)
  {
    var lookup := ReadStates(rows);
    var show := ShownIn(lookup);
    perDevice, totals := seq(|devices|, _ => Totals(0, 0, 0, 0)), Totals(0, 0, 0, 0);
    NobodyCounted(show, devices);
    for j := 0 to |people|
      invariant |perDevice| == |devices|
      invariant forall k :: 0 <= k < |devices| ==> perDevice[k] == TotalsOf(show, people[..j], devices[k].id)
      invariant totals == SumOver(show, people[..j], devices)
    {
      var t;
      perDevice, t := OnePerson(show, people, j, devices, perDevice);
      SumOverMore(show, people, j, devices);
      totals := Plus(totals, t);
    }
    assert people[..|people|] == people;
  }

  method ReadStates(rows: seq<StateRow>) returns (lookup: map<string, Presence>)
    ensures lookup == Lookup(rows)
  {
    lookup := map[];
    for k := 0 to |rows|
      invariant lookup == Lookup(rows[..k])
    {
      assert rows[..k + 1][..k] == rows[..k];
      lookup := lookup[KeyText(rows[k].kind, rows[k].person, rows[k].device) := rows[k].presence];
    }
    assert rows[..|rows|] == rows;
  }

  method OnePerson(show: Shower, people: seq<Someone>, j: nat, devices: seq<Device>, before: seq<Totals>)
    returns (after: seq<Totals>, added: Totals)
    requires j < |people| && |before| == |devices|
    requires forall k :: 0 <= k < |devices| ==> before[k] == TotalsOf(show, people[..j], devices[k].id)
    ensures |after| == |devices|
    ensures forall k :: 0 <= k < |devices| ==> after[k] == TotalsOf(show, people[..j + 1], devices[k].id)
    ensures added == RowTotals(show, people[j], devices)
  {
    after, added := before, Totals(0, 0, 0, 0);
    assert people[..j + 1][..j] == people[..j];
    for k := 0 to |devices|
      invariant |after| == |devices|
      invariant forall i :: 0 <= i < k ==> after[i] == TotalsOf(show, people[..j + 1], devices[i].id)
      invariant forall i :: k <= i < |devices| ==> after[i] == before[i]
      invariant added == RowTotals(show, people[j], devices[..k])
    {
      var presence := show(people[j], devices[k].id);
      after := after[k := CountOne(after[k], presence)];
      assert devices[..k + 1][..k] == devices[..k];
      added := CountOne(added, presence);
    }
    assert devices[..|devices|] == devices;
  }

  lemma {:induction false} NobodyCounted(show: Shower, devices: seq<Device>)
    ensures SumOver(show, [], devices) == Totals(0, 0, 0, 0)
    decreases |devices|
  {
    if devices != [] { NobodyCounted(show, devices[..|devices| - 1]); }
  }

  lemma {:induction false} SumOverMore(show: Shower, people: seq<Someone>, j: nat, devices: seq<Device>)
    requires j < |people|
    ensures SumOver(show, people[..j + 1], devices) == Plus(SumOver(show, people[..j], devices), RowTotals(show, people[j], devices))
    decreases |devices|
  {
    if devices != [] {
      SumOverMore(show, people, j, devices[..|devices| - 1]);
      assert people[..j + 1][..j] == people[..j];
    }
  }

  /** Each count of a terminal is the people shown in its own state, and with those removed they are all the people. */
  lemma {:induction false} EveryPersonIsCounted(show: Shower, people: seq<Someone>, device: string)
    ensures var t := TotalsOf(show, people, device);
      && t.synced == HowMany(show, people, device, Synced) && t.pending == HowMany(show, people, device, Awaiting)
      && t.manual == HowMany(show, people, device, ByHand) && t.missing == HowMany(show, people, device, Missing)
      && t.synced + t.pending + t.manual + t.missing + HowMany(show, people, device, Removed) == |people|
    decreases |people|
  {
    if people != [] { EveryPersonIsCounted(show, people[..|people| - 1], device); }
  }

  /** Each total is the people shown in its own state, over all terminals. */
  lemma {:induction false} TotalsAreOverAll(show: Shower, people: seq<Someone>, devices: seq<Device>)
    ensures var t := SumOver(show, people, devices);
      && t.synced == HowManyInAll(show, people, devices, Synced) && t.pending == HowManyInAll(show, people, devices, Awaiting)
      && t.manual == HowManyInAll(show, people, devices, ByHand) && t.missing == HowManyInAll(show, people, devices, Missing)
    decreases |devices|
  {
    if devices != [] {
      TotalsAreOverAll(show, people, devices[..|devices| - 1]);
      EveryPersonIsCounted(show, people, devices[|devices| - 1].id);
    }
  }

  // ---- The text keys keep people and terminals apart ----

  predicate NoBar(s: string) {
    '|' !in s
  }

  /** Where the first bar of a text is. */
  function FirstBar(s: string): nat {
    if s == "" || s[0] == '|' then 0 else 1 + FirstBar(s[1..])
  }

  lemma {:induction false} FirstBarOf(a: string, x: string)
    requires NoBar(a)
    ensures FirstBar(a + "|" + x) == |a|
    decreases |a|
  {
    if a == "" {
      assert (a + "|" + x)[0] == '|';
    } else {
      assert (a + "|" + x)[1..] == a[1..] + "|" + x;
      assert (a + "|" + x)[0] == a[0];
      FirstBarOf(a[1..], x);
    }
  }

  lemma {:induction false} BarSplits(a: string, b: string, x: string, y: string)
    requires NoBar(a) && NoBar(b) && a + "|" + x == b + "|" + y
    ensures a == b && x == y
  {
    var s := a + "|" + x;
    FirstBarOf(a, x);
    FirstBarOf(b, y);
    assert a == s[..|a|] && b == s[..|b|] && x == s[|a| + 1..] && y == s[|b| + 1..];
  }

  /** Of ids without a bar, no two people or terminals share a key. */
  lemma {:induction false} KeysDiffer(k: Kind, p: string, d: string, kk: Kind, pp: string, dd: string)
    requires NoBar(p) && NoBar(pp) && KeyText(k, p, d) == KeyText(kk, pp, dd)
    ensures k == kk && p == pp && d == dd
  {
    assert KeyText(k, p, d) == KindText(k) + "|" + (p + "|" + d);
    assert KeyText(kk, pp, dd) == KindText(kk) + "|" + (pp + "|" + dd);
    BarSplits(KindText(k), KindText(kk), p + "|" + d, pp + "|" + dd);
    BarSplits(p, pp, d, dd);
  }

  predicate Collide(k: Kind, p: string, d: string, kk: Kind, pp: string, dd: string) {
    KeyText(k, p, d) == KeyText(kk, pp, dd)
  }

  lemma {:induction false} KeySplits(k: Kind, p: string, d: string, kk: Kind, pp: string, dd: string)
    ensures Collide(k, p, d, kk, pp, dd) <==> k == kk && (p + "|") + d == (pp + "|") + dd
  {
    assert KeyText(k, p, d) == KindText(k) + "|" + (p + "|" + d);
    assert KeyText(kk, pp, dd) == KindText(kk) + "|" + (pp + "|" + dd);
    if Collide(k, p, d, kk, pp, dd) {
      BarSplits(KindText(k), KindText(kk), p + "|" + d, pp + "|" + dd);
    }
  }

  lemma {:induction false} PrefixesCollide(k: Kind, p: string, pp: string)
    requires p + "|" <= pp + "|"
    ensures exists d, dd :: Collide(k, p, d, k, pp, dd)
  {
    var d := (pp + "|")[|p| + 1..];
    KeySplits(k, p, d, k, pp, "");
    assert (p + "|") + d == (pp + "|") + "";
    assert Collide(k, p, d, k, pp, "");
  }

  /**
   * Two people can share a key at some terminals, so that one's state is shown for the other, exactly
   * when they are of one kind and one id with a bar after it begins the other with a bar after it.
   */
  lemma {:induction false} BarsCanCollide(k: Kind, p: string, kk: Kind, pp: string)
    ensures (exists d, dd :: Collide(k, p, d, kk, pp, dd)) <==> k == kk && (p + "|" <= pp + "|" || pp + "|" <= p + "|")
  {
    if d, dd :| Collide(k, p, d, kk, pp, dd) {
      KeySplits(k, p, d, kk, pp, dd);
      PrefixesOfOne(p + "|", d, pp + "|", dd);
    }
    if k == kk && p + "|" <= pp + "|" {
      PrefixesCollide(k, p, pp);
    }
    if k == kk && pp + "|" <= p + "|" {
      PrefixesCollide(k, pp, p);
      var d, dd :| Collide(k, pp, d, k, p, dd);
      assert Collide(k, p, dd, k, pp, d);
    }
  }

  lemma {:induction false} PrefixesOfOne(a: string, x: string, b: string, y: string)
    requires a + x == b + y
    ensures a <= b || b <= a
  {
    var s := a + x;
    assert a == s[..|a|] && b == s[..|b|];
    if |a| <= |b| { assert a == b[..|a|]; } else { assert b == a[..|b|]; }
  }

  /** The ids that the portal issues are UUIDs. */
  predicate IsUuid(id: string) {
    |id| == 36 && forall i :: 0 <= i < 36 ==> '0' <= id[i] <= '9' || 'a' <= id[i] <= 'f' || id[i] == '-'
  }

  lemma {:induction false} UuidsDoNotCollide(k: Kind, p: string, d: string, kk: Kind, pp: string, dd: string)
    requires IsUuid(p) && IsUuid(pp) && Collide(k, p, d, kk, pp, dd)
    ensures k == kk && p == pp && d == dd
  {
    KeysDiffer(k, p, d, kk, pp, dd);
  }

  predicate IsFor(row: StateRow, p: Someone, device: string) {
    row.kind == p.kind && row.person == p.id && row.device == device
  }

  /** The last state recorded for exactly that person and terminal. */
  function LastFor(rows: seq<StateRow>, p: Someone, device: string): Option<Presence> {
    if rows == [] then None
    else if IsFor(rows[|rows| - 1], p, device) then Some(rows[|rows| - 1].presence)
    else LastFor(rows[..|rows| - 1], p, device)
  }

  lemma {:induction false} SameKey(row: StateRow, p: Someone, device: string)
    requires NoBar(p.id) && NoBar(row.person)
    ensures KeyText(row.kind, row.person, row.device) == KeyText(p.kind, p.id, device) <==> IsFor(row, p, device)
  {
    if KeyText(row.kind, row.person, row.device) == KeyText(p.kind, p.id, device) {
      KeysDiffer(row.kind, row.person, row.device, p.kind, p.id, device);
    }
  }

  /** What is shown is what was recorded last for exactly that person and terminal, and missing when nothing was. */
  lemma {:induction false} ShownIsRecorded(rows: seq<StateRow>, p: Someone, device: string)
    requires NoBar(p.id) && forall k :: 0 <= k < |rows| ==> NoBar(rows[k].person)
    ensures Shown(Lookup(rows), p, device) == (var last := LastFor(rows, p, device); if last.Some? then last.value else Missing)
    decreases |rows|
  {
    if rows != [] {
      var n := |rows| - 1;
      ShownIsRecorded(rows[..n], p, device);
      SameKey(rows[n], p, device);
      ShownAfter(Lookup(rows[..n]), rows[n], p, device);
    }
  }

  lemma {:induction false} ShownAfter(before: map<string, Presence>, row: StateRow, p: Someone, device: string)
    ensures Shown(before[KeyText(row.kind, row.person, row.device) := row.presence], p, device) ==
            if KeyText(row.kind, row.person, row.device) == KeyText(p.kind, p.id, device) then row.presence
            else Shown(before, p, device)
  {
  }
}
