/** What a rebuild of the receive flows means: the subscription table planned into
    wants, the flow table moved towards them, and the channels' statuses after. */
module Subscriptions {
  import opened FlowTable
  import opened Prelude

  const NCH := 8
  const MAX_SLOTS := 8

  datatype Status = Unset | Pending | Active

  /** One receive channel: what it is subscribed to, and how that stands. */
  datatype Sub = Sub(channel: string, device: string, status: Status)

  /** A resolved transmit channel. */
  datatype Tx = Tx(id: int, rate: int, latencyUs: nat)

  datatype State = State(flows: seq<Flow>, subs: seq<Sub>, trail: seq<seq<Flow>>)

  // ----- planning ----------------------------------------------------------

  predicate Eligible(sub: Sub, found: Option<Tx>, rate: int)
  {
    sub.channel != "" && found.Some? && found.value.rate == rate
  }

  /** There is a place for one more channel of this device. */
  predicate Admitted(ws: seq<Want>, d: string)
  {
    var w := WantOf(ws, d);
    if w.Some? then |ws[w.value].slots| < MAX_SLOTS else |ws| < MAX_FLOWS
  }

  function Adding(ws: seq<Want>, d: string, s: Slot): seq<Want>
  {
    var w := WantOf(ws, d);
    if w.Some? then ws[w.value := ws[w.value].(slots := ws[w.value].slots + [s])] else ws + [Want(d, [s])]
  }

  predicate Joins(ws: seq<Want>, sub: Sub, found: Option<Tx>, rate: int)
  {
    Eligible(sub, found, rate) && Admitted(ws, sub.device)
  }

  /** The wants of the first n channels, in channel order. */
  function Plan(subs: seq<Sub>, found: seq<Option<Tx>>, rate: int, n: nat): seq<Want>
    requires n <= |subs| == |found|
  {
    if n == 0 then []
    else
      var ws := Plan(subs, found, rate, n - 1);
      if Joins(ws, subs[n - 1], found[n - 1], rate) then Adding(ws, subs[n - 1].device, Slot(found[n - 1].value.id, n - 1)) else ws
  }

  ghost predicate HasChannel(slots: seq<Slot>, c: nat)
  {
    exists k :: 0 <= k < |slots| && slots[k].ch == c
  }

  /** A channel has a place in the plan: in the want of its own device. */
  ghost predicate Planned(ws: seq<Want>, d: string, c: nat)
  {
    var w := WantOf(ws, d);
    w.Some? && HasChannel(ws[w.value].slots, c)
  }

  /** The slots of a want are channels subscribed to its device, each once. */
  ghost predicate SlotsOk(w: Want, subs: seq<Sub>, n: nat)
  {
    && (forall k :: 0 <= k < |w.slots| ==>
          w.slots[k].ch < n <= |subs| && subs[w.slots[k].ch].device == w.device && subs[w.slots[k].ch].channel != "")
    && (forall j, k :: 0 <= j < k < |w.slots| ==> w.slots[j].ch < w.slots[k].ch)
  }

  ghost predicate PlanOk(ws: seq<Want>, subs: seq<Sub>, n: nat)
  {
    WantsOk(ws) && forall k :: 0 <= k < |ws| ==> SlotsOk(ws[k], subs, n)
  }

  /** Looking up a channel at a device without a name fails. */
  ghost predicate AnswersOk(subs: seq<Sub>, found: seq<Option<Tx>>)
  {
    |subs| == |found| && forall c :: 0 <= c < |subs| && subs[c].device == "" ==> found[c].None?
  }

  lemma AddingOk(ws: seq<Want>, subs: seq<Sub>, n: nat, s: Slot)
    requires PlanOk(ws, subs, n) && n < |subs| && s.ch == n && subs[n].channel != "" && subs[n].device != ""
    requires Admitted(ws, subs[n].device)
    ensures PlanOk(Adding(ws, subs[n].device, s), subs, n + 1)
    ensures Planned(Adding(ws, subs[n].device, s), subs[n].device, n)
    ensures forall d, c :: c != n ==> (Planned(Adding(ws, subs[n].device, s), d, c) <==> Planned(ws, d, c))
  {
    var d := subs[n].device;
    var r := Adding(ws, d, s);
    var w := WantOf(ws, d);
    var at := if w.Some? then w.value else |ws|;
    assert r[at].slots[|r[at].slots| - 1] == s;
    WantIs(r, at);
    AddingNothingElse(ws, d, s);
    hide Planned;
  }

  lemma AddingNothingElse(ws: seq<Want>, d: string, s: Slot)
    requires WantsOk(ws) && WantsOk(Adding(ws, d, s))
    ensures forall e, c :: c != s.ch ==> (Planned(Adding(ws, d, s), e, c) <==> Planned(ws, e, c))
  {
    hide Planned, Adding, WantsOk;
    forall e, c | c != s.ch
      ensures Planned(Adding(ws, d, s), e, c) <==> Planned(ws, e, c)
    {
      AddingElsewhere(ws, d, s, e, c);
    }
  }

  lemma AddingElsewhere(ws: seq<Want>, d: string, s: Slot, e: string, c: nat)
    requires WantsOk(ws) && WantsOk(Adding(ws, d, s)) && c != s.ch
    ensures Planned(Adding(ws, d, s), e, c) <==> Planned(ws, e, c)
  {
    var r := Adding(ws, d, s);
    var w, v := WantOf(ws, e), WantOf(r, e);
    if w.Some? {
      WantIs(r, w.value);
      var before, after := ws[w.value].slots, r[w.value].slots;
      assert forall k :: 0 <= k < |before| ==> after[k] == before[k];
    }
  }

  lemma PlanWidens(ws: seq<Want>, subs: seq<Sub>, n: nat, d: string, c: nat)
    requires PlanOk(ws, subs, n) && n < |subs|
    ensures PlanOk(ws, subs, n + 1)
    ensures c >= n ==> !Planned(ws, d, c)
  {}

  /** The plan is well formed, and a channel is in it exactly when it could be
      resolved at our rate and there was a place for it when its turn came. */
  lemma {:induction false} PlanIsExact(subs: seq<Sub>, found: seq<Option<Tx>>, rate: int, n: nat, c: nat)
    requires AnswersOk(subs, found) && c < n <= |subs|
    ensures PlanOk(Plan(subs, found, rate, n), subs, n)
    ensures Planned(Plan(subs, found, rate, n), subs[c].device, c) <==> Joins(Plan(subs, found, rate, c), subs[c], found[c], rate)
  {
    hide PlanOk, Planned, Joins, Adding;
    PlanIsOk(subs, found, rate, n - 1);
    var ws := Plan(subs, found, rate, n - 1);
    PlanWidens(ws, subs, n - 1, subs[c].device, c);
    if c < n - 1 { PlanIsExact(subs, found, rate, n - 1, c); }
    if Joins(ws, subs[n - 1], found[n - 1], rate) {
      JoinsFound(ws, subs, found, rate, n - 1);
      AddingOk(ws, subs, n - 1, Slot(found[n - 1].value.id, n - 1));
    }
  }

  lemma {:induction false} RisingChannels(w: Want, subs: seq<Sub>, n: nat, k: nat)
    requires SlotsOk(w, subs, n) && k < |w.slots|
    ensures w.slots[k].ch >= k
  {
    if k > 0 { RisingChannels(w, subs, n, k - 1); }
  }

  /** A flow has room for every channel there is, so only the number of transmitters limits
      the plan: a channel is in it exactly when its names were resolved at our rate and its
      device is already in it or is one of the first four. */
  lemma PlannedExactly(subs: seq<Sub>, found: seq<Option<Tx>>, rate: int, n: nat, c: nat)
    requires AnswersOk(subs, found) && c < n <= |subs| == 8
    ensures var before := Plan(subs, found, rate, c);
      Planned(Plan(subs, found, rate, n), subs[c].device, c) <==>
        subs[c].channel != "" && found[c].Some? && found[c].value.rate == rate
        && (WantOf(before, subs[c].device).Some? || |before| < 4)
  {
    var before := Plan(subs, found, rate, c);
    PlanIsExact(subs, found, rate, n, c);
    PlanIsOk(subs, found, rate, c);
    var w := WantOf(before, subs[c].device);
    if w.Some? {
      var slots := before[w.value].slots;
      if slots != [] { RisingChannels(before[w.value], subs, c, |slots| - 1); }
      assert |slots| <= c < 8;
    }
    hide Plan, PlanOk, Planned;
  }

  lemma JoinsFound(ws: seq<Want>, subs: seq<Sub>, found: seq<Option<Tx>>, rate: int, c: nat)
    requires AnswersOk(subs, found) && c < |subs| && Joins(ws, subs[c], found[c], rate)
    ensures found[c].Some? && subs[c].channel != "" && subs[c].device != "" && Admitted(ws, subs[c].device)
  {}

  lemma {:induction false} PlanIsOk(subs: seq<Sub>, found: seq<Option<Tx>>, rate: int, n: nat)
    requires AnswersOk(subs, found) && n <= |subs|
    ensures PlanOk(Plan(subs, found, rate, n), subs, n)
  {
    if n > 0 {
      hide PlanOk, Joins, Adding, Planned;
      PlanIsOk(subs, found, rate, n - 1);
      var ws := Plan(subs, found, rate, n - 1);
      PlanWidens(ws, subs, n - 1, "", 0);
      if Joins(ws, subs[n - 1], found[n - 1], rate) {
        JoinsFound(ws, subs, found, rate, n - 1);
        AddingOk(ws, subs, n - 1, Slot(found[n - 1].value.id, n - 1));
      }
    } else {
      assert PlanOk([], subs, 0);
    }
  }

  // ----- the stages of a rebuild -------------------------------------------

  ghost function SetStatus(subs: seq<Sub>, slots: seq<Slot>, to: Status): (r: seq<Sub>)
    ensures |r| == |subs|
  {
    seq(|subs|, c requires 0 <= c < |subs| => if HasChannel(slots, c) then subs[c].(status := to) else subs[c])
  }

  /** First stage: a subscribed channel without a place in the plan is pending. */
  ghost function Screened(subs: seq<Sub>, ws: seq<Want>): (r: seq<Sub>)
    ensures |r| == |subs|
  {
    seq(|subs|, c requires 0 <= c < |subs| =>
      if subs[c].channel != "" && !Planned(ws, subs[c].device, c) then subs[c].(status := Pending) else subs[c])
  }

  /** The flow in this slot is exactly what is wanted: untouched. */
  predicate Same(fs: seq<Flow>, ws: seq<Want>, i: nat)
    requires i < |fs|
  {
    fs[i].active && var w := WantOf(ws, fs[i].device); w.Some? && ws[w.value].slots == fs[i].slots
  }

  /** Second stage: the channels of an untouched flow are active. */
  ghost function Confirmed(subs: seq<Sub>, fs: seq<Flow>, ws: seq<Want>, n: nat): (r: seq<Sub>)
    requires n <= |fs|
    ensures |r| == |subs|
  {
    if n == 0 then subs
    else
      var r := Confirmed(subs, fs, ws, n - 1);
      if Same(fs, ws, n - 1) then SetStatus(r, fs[n - 1].slots, Active) else r
  }

  ghost function Affected(subs: seq<Sub>, slots: seq<Slot>, effect: Effect): (r: seq<Sub>)
    ensures |r| == |subs|
  {
    match effect
    case Untouched => subs
    case Up => SetStatus(subs, slots, Active)
    case Down => SetStatus(subs, slots, Pending)
  }

  /** Third stage, one want. */
  ghost function Bringing(st: State, w: Want, e: Answer): State
  {
    var c := Bring(st.flows, w, e);
    State(Last(st.flows, c.steps), Affected(st.subs, w.slots, c.effect), st.trail + c.steps)
  }

  ghost function BringAll(st: State, ws: seq<Want>, es: seq<Answer>, n: nat): State
    requires n <= |ws| <= |es|
  {
    if n == 0 then st else Bringing(BringAll(st, ws, es, n - 1), ws[n - 1], es[n - 1])
  }

  /** The tables the second stage passes through. */
  ghost function Stopping(fs: seq<Flow>, ws: seq<Want>, n: nat): seq<seq<Flow>>
    requires n <= |fs|
  {
    if n == 0 then [] else Stopping(fs, ws, n - 1) + [Reconciled(fs, ws, n)]
  }

  lemma NoneReconciled(fs: seq<Flow>, ws: seq<Want>, subs: seq<Sub>)
    ensures Reconciled(fs, ws, 0) == fs && Confirmed(subs, fs, ws, 0) == subs && Stopping(fs, ws, 0) == []
  {}

  lemma OneReconciled(fs: seq<Flow>, ws: seq<Want>, subs: seq<Sub>, i: nat)
    requires i < |fs|
    ensures var r := Confirmed(subs, fs, ws, i);
      Confirmed(subs, fs, ws, i + 1) == if Same(fs, ws, i) then SetStatus(r, fs[i].slots, Active) else r
    ensures Stopping(fs, ws, i + 1) == Stopping(fs, ws, i) + [Reconciled(fs, ws, i + 1)]
  {}

  ghost function Reconcile(st: State, ws: seq<Want>): State
  {
    State(Reconciled(st.flows, ws, |st.flows|), Confirmed(Screened(st.subs, ws), st.flows, ws, |st.flows|),
          st.trail + Stopping(st.flows, ws, |st.flows|))
  }

  /** A whole rebuild on a plan. */
  ghost function Rebuilt(st: State, ws: seq<Want>, es: seq<Answer>): State
    requires |ws| <= |es|
  {
    BringAll(Reconcile(st, ws), ws, es, |ws|)
  }

  // ----- names never change in a rebuild -----------------------------------

  ghost predicate SameNames(a: seq<Sub>, b: seq<Sub>)
  {
    |a| == |b| && forall c :: 0 <= c < |a| ==> a[c].channel == b[c].channel && a[c].device == b[c].device
  }

  lemma PlanOkNames(ws: seq<Want>, a: seq<Sub>, b: seq<Sub>, n: nat)
    requires PlanOk(ws, a, n) && SameNames(a, b)
    ensures PlanOk(ws, b, n)
  {
    forall k | 0 <= k < |ws|
      ensures SlotsOk(ws[k], b, n)
    {
      assert SlotsOk(ws[k], a, n);
    }
  }

  /** Channels of different wants are different. */
  lemma ChannelsApart(ws: seq<Want>, subs: seq<Sub>, j: nat, k: nat, c: nat)
    requires PlanOk(ws, subs, |subs|) && j < |ws| && k < |ws| && j != k && HasChannel(ws[j].slots, c)
    ensures !HasChannel(ws[k].slots, c)
  {}

  // ----- what a rebuild does to each want ----------------------------------

  /** The status of a channel of a want, given what was served before and after. */
  function StatusAfter(before: Option<seq<Slot>>, after: Option<seq<Slot>>, w: Want, e: Answer, was: Status): Status
  {
    if before == Some(w.slots) || !e.bind || (before.Some? && after == before) then was
    else if after == Some(w.slots) then Active else Pending
  }

  /** One want settled, its flow and its channels. */
  ghost predicate WantDone(a: State, b: State, w: Want, e: Answer)
  {
    && Settled(Serves(a.flows, w.device), Serves(b.flows, w.device), w, e)
    && |a.subs| == |b.subs|
    && forall c :: 0 <= c < |a.subs| && HasChannel(w.slots, c) ==>
         b.subs[c].status == StatusAfter(Serves(a.flows, w.device), Serves(b.flows, w.device), w, e, a.subs[c].status)
  }

  /** One want not reached yet. */
  ghost predicate WantIntact(a: State, b: State, w: Want)
  {
    && Serves(b.flows, w.device) == Serves(a.flows, w.device)
    && |a.subs| == |b.subs|
    && forall c :: 0 <= c < |a.subs| && HasChannel(w.slots, c) ==> b.subs[c] == a.subs[c]
  }

  ghost predicate Ready(st: State, ws: seq<Want>)
  {
    TableOk(st.flows) && Within(st.flows, ws) && PlanOk(ws, st.subs, |st.subs|)
  }

  lemma BringingOne(st: State, ws: seq<Want>, k: nat, e: Answer)
    requires Ready(st, ws) && k < |ws|
    ensures var r := Bringing(st, ws[k], e);
      && Ready(r, ws) && SameNames(st.subs, r.subs) && WantDone(st, r, ws[k], e)
      && (forall j :: 0 <= j < |ws| && j != k ==> WantIntact(st, r, ws[j]))
      && (forall c :: 0 <= c < |st.subs| && !HasChannel(ws[k].slots, c) ==> r.subs[c] == st.subs[c])
  {
    hide Bring, Last, TableOk, Within, Serves;
    var r := Bringing(st, ws[k], e);
    BringSettles(st.flows, ws, k, e);
    PlanOkNames(ws, st.subs, r.subs, |st.subs|);
    forall j | 0 <= j < |ws| && j != k
      ensures WantIntact(st, r, ws[j])
    {
      forall c | 0 <= c < |st.subs| && HasChannel(ws[j].slots, c)
        ensures r.subs[c] == st.subs[c]
      {
        ChannelsApart(ws, st.subs, j, k, c);
      }
    }
  }

  lemma DoneThenIntact(a: State, m: State, b: State, w: Want, e: Answer)
    requires WantDone(a, m, w, e) && WantIntact(m, b, w)
    ensures WantDone(a, b, w, e)
  {}

  lemma IntactThenDone(a: State, m: State, b: State, w: Want, e: Answer)
    requires WantIntact(a, m, w) && WantDone(m, b, w, e)
    ensures WantDone(a, b, w, e)
  {}

  lemma IntactTwice(a: State, m: State, b: State, w: Want)
    requires WantIntact(a, m, w) && WantIntact(m, b, w)
    ensures WantIntact(a, b, w)
  {}

  ghost predicate OthersSame(a: State, b: State, ws: seq<Want>)
  {
    |a.subs| == |b.subs| && forall c :: 0 <= c < |a.subs| && !Planned(ws, a.subs[c].device, c) ==> b.subs[c] == a.subs[c]
  }

  lemma OthersSameStep(a: State, m: State, b: State, ws: seq<Want>, k: nat)
    requires OthersSame(a, m, ws) && SameNames(a.subs, m.subs) && |m.subs| == |b.subs| && Ready(m, ws) && k < |ws|
    requires forall c :: 0 <= c < |m.subs| && !HasChannel(ws[k].slots, c) ==> b.subs[c] == m.subs[c]
    ensures OthersSame(a, b, ws)
  {
    forall c | 0 <= c < |a.subs| && !Planned(ws, a.subs[c].device, c)
      ensures b.subs[c] == a.subs[c]
    {
      if HasChannel(ws[k].slots, c) {
        InItsOwnWant(m, ws, k, c);
        assert false;
      }
    }
  }

  lemma InItsOwnWant(st: State, ws: seq<Want>, k: nat, c: nat)
    requires Ready(st, ws) && k < |ws| && HasChannel(ws[k].slots, c)
    ensures c < |st.subs| && st.subs[c].device == ws[k].device && Planned(ws, st.subs[c].device, c)
  {
    WantIs(ws, k);
  }

  /** After n wants: those are settled against the table the stage began with, the
      others are as they were, and no channel outside the plan has changed. */
  lemma {:induction false} BringAllSettles(st: State, ws: seq<Want>, es: seq<Answer>, n: nat)
    requires Ready(st, ws) && n <= |ws| <= |es|
    ensures var r := BringAll(st, ws, es, n);
      && Ready(r, ws) && SameNames(st.subs, r.subs) && OthersSame(st, r, ws)
      && (forall j :: 0 <= j < n ==> WantDone(st, r, ws[j], es[j]))
      && (forall j :: n <= j < |ws| ==> WantIntact(st, r, ws[j]))
  {
    hide Ready, WantDone, WantIntact, OthersSame, Bringing;
    if n == 0 {
      NothingYet(st, ws);
    } else {
      BringAllSettles(st, ws, es, n - 1);
      var m := BringAll(st, ws, es, n - 1);
      var r := Bringing(m, ws[n - 1], es[n - 1]);
      BringingOne(m, ws, n - 1, es[n - 1]);
      OthersSameStep(st, m, r, ws, n - 1);
      IntactThenDone(st, m, r, ws[n - 1], es[n - 1]);
      forall j | 0 <= j < n - 1
        ensures WantDone(st, r, ws[j], es[j])
      {
        DoneThenIntact(st, m, r, ws[j], es[j]);
      }
      forall j | n <= j < |ws|
        ensures WantIntact(st, r, ws[j])
      {
        IntactTwice(st, m, r, ws[j]);
      }
    }
  }

  lemma NothingYet(st: State, ws: seq<Want>)
    ensures SameNames(st.subs, st.subs) && OthersSame(st, st, ws)
    ensures forall j :: 0 <= j < |ws| ==> WantIntact(st, st, ws[j])
  {}

  // ----- the second stage --------------------------------------------------

  lemma {:induction false} ConfirmedAt(subs: seq<Sub>, fs: seq<Flow>, ws: seq<Want>, n: nat, c: nat)
    requires n <= |fs| && c < |subs|
    ensures Confirmed(subs, fs, ws, n)[c] ==
      if exists i :: 0 <= i < n && Same(fs, ws, i) && HasChannel(fs[i].slots, c) then subs[c].(status := Active) else subs[c]
  {
    if n > 0 {
      ConfirmedAt(subs, fs, ws, n - 1, c);
      if Same(fs, ws, n - 1) && HasChannel(fs[n - 1].slots, c) {
        assert Confirmed(subs, fs, ws, n)[c] == subs[c].(status := Active);
      }
    }
  }

  /** A channel's status once the second stage is over. */
  ghost function Screening(st: State, ws: seq<Want>, c: nat): Status
    requires c < |st.subs|
  {
    var sub := st.subs[c];
    if Planned(ws, sub.device, c) then
      (if Serves(st.flows, sub.device) == Some(ws[WantOf(ws, sub.device).value].slots) then Active else sub.status)
    else if sub.channel != "" then Pending else sub.status
  }

  lemma ReconcileChannel(st: State, ws: seq<Want>, c: nat)
    requires TableOk(st.flows) && PlanOk(ws, st.subs, |st.subs|) && c < |st.subs|
    ensures Reconcile(st, ws).subs[c] == st.subs[c].(status := Screening(st, ws, c))
  {
    var fs, sub := st.flows, st.subs[c];
    ConfirmedAt(Screened(st.subs, ws), fs, ws, |fs|, c);
    if i :| 0 <= i < |fs| && Same(fs, ws, i) && HasChannel(fs[i].slots, c) {
      var k := WantOf(ws, fs[i].device).value;
      assert SlotsOk(ws[k], st.subs, |st.subs|);
      assert sub.device == fs[i].device;
      FirstIs(fs, sub.device, i);
    } else if Planned(ws, sub.device, c) && Serves(fs, sub.device) == Some(ws[WantOf(ws, sub.device).value].slots) {
      assert Same(fs, ws, First(fs, sub.device).value);
      assert false;
    }
  }

  lemma ReconcileReady(st: State, ws: seq<Want>)
    requires TableOk(st.flows) && PlanOk(ws, st.subs, |st.subs|)
    ensures var r := Reconcile(st, ws);
      && Ready(r, ws) && SameNames(st.subs, r.subs)
      && forall d :: d != "" ==> Serves(r.flows, d) == if WantOf(ws, d).Some? then Serves(st.flows, d) else None
  {
    hide TableOk, PlanOk, Serves, Within;
    var r := Reconcile(st, ws);
    forall c | 0 <= c < |st.subs|
      ensures r.subs[c] == st.subs[c].(status := Screening(st, ws, c))
    {
      ReconcileChannel(st, ws, c);
    }
    PlanOkNames(ws, st.subs, r.subs, |st.subs|);
    WantsOfPlan(ws, st.subs);
    ReconciledServes(st.flows, ws, "?");
    forall d | d != ""
      ensures Serves(r.flows, d) == if WantOf(ws, d).Some? then Serves(st.flows, d) else None
    {
      ReconciledServes(st.flows, ws, d);
    }
  }

  lemma WantsOfPlan(ws: seq<Want>, subs: seq<Sub>)
    requires PlanOk(ws, subs, |subs|)
    ensures WantsOk(ws)
  {}

  // ----- what a rebuild establishes ----------------------------------------

  /** An active channel is subscribed, and if its device has a flow, on it. */
  ghost predicate Fits(st: State)
  {
    forall c :: 0 <= c < |st.subs| && st.subs[c].status == Active ==>
      var s := Serves(st.flows, st.subs[c].device);
      st.subs[c].channel != "" && (s.Some? ==> HasChannel(s.value, c))
  }

  /** An active channel is on the flow of its own device. */
  ghost predicate Sound(st: State)
  {
    forall c :: 0 <= c < |st.subs| && st.subs[c].status == Active ==>
      var s := Serves(st.flows, st.subs[c].device);
      st.subs[c].channel != "" && s.Some? && HasChannel(s.value, c)
  }

  /** Each channel's status after a whole rebuild, from what was served before and
      is served after. */
  lemma RebuildChannel(st: State, ws: seq<Want>, es: seq<Answer>, c: nat)
    requires TableOk(st.flows) && PlanOk(ws, st.subs, |st.subs|) && |ws| <= |es| && c < |st.subs|
    ensures var r := Rebuilt(st, ws, es); var d := st.subs[c].device;
      |r.subs| == |st.subs|
      && if !Planned(ws, d, c) then
           r.subs[c].status == (if st.subs[c].channel != "" then Pending else st.subs[c].status)
         else
           var k := WantOf(ws, d).value;
           r.subs[c].status == StatusAfter(Serves(st.flows, d), Serves(r.flows, d), ws[k], es[k], Screening(st, ws, c))
  {
    hide TableOk, PlanOk, Serves, StatusAfter, Settled, HasChannel;
    var m := Reconcile(st, ws);
    ReconcileReady(st, ws);
    ReconcileChannel(st, ws, c);
    BringAllSettles(m, ws, es, |ws|);
    if Planned(ws, st.subs[c].device, c) {
      var k := WantOf(ws, st.subs[c].device).value;
      NamedWant(ws, st.subs, k);
      assert WantDone(m, Rebuilt(st, ws, es), ws[k], es[k]);
    }
  }

  lemma NamedWant(ws: seq<Want>, subs: seq<Sub>, k: nat)
    requires PlanOk(ws, subs, |subs|) && k < |ws|
    ensures ws[k].device != "" && WantOf(ws, ws[k].device) == Some(k)
  {
    WantIs(ws, k);
  }

  /** Each device after a whole rebuild: the wanted ones as their answers decide, in
      particular every new one that could be bound and was granted, exactly as
      planned; nothing else is received. */
  lemma RebuildServes(st: State, ws: seq<Want>, es: seq<Answer>, d: string)
    requires TableOk(st.flows) && PlanOk(ws, st.subs, |st.subs|) && |ws| <= |es| && d != ""
    ensures var r := Rebuilt(st, ws, es);
      && TableOk(r.flows) && SameNames(st.subs, r.subs)
      && match WantOf(ws, d)
         case None => Serves(r.flows, d) == None
         case Some(k) => Settled(Serves(st.flows, d), Serves(r.flows, d), ws[k], es[k])
  {
    hide PlanOk, Serves, Settled, HasChannel;
    var m := Reconcile(st, ws);
    var r := Rebuilt(st, ws, es);
    ReconcileReady(st, ws);
    BringAllSettles(m, ws, es, |ws|);
    match WantOf(ws, d)
    case Some(k) =>
      assert WantDone(m, r, ws[k], es[k]);
    case None =>
      UnwantedIsNotServed(r, ws, d);
  }

  lemma UnwantedIsNotServed(r: State, ws: seq<Want>, d: string)
    requires Ready(r, ws) && d != "" && WantOf(ws, d).None?
    ensures Serves(r.flows, d) == None
  {}

  /** What channel c looks like after a rebuild, whatever the answers were. */
  lemma ActiveAfter(st: State, ws: seq<Want>, es: seq<Answer>, c: nat)
    requires TableOk(st.flows) && PlanOk(ws, st.subs, |st.subs|) && |ws| <= |es| && c < |st.subs| && Fits(st)
    requires c < |Rebuilt(st, ws, es).subs| && Rebuilt(st, ws, es).subs[c].status == Active
    ensures var r := Rebuilt(st, ws, es); var d := st.subs[c].device; var s := Serves(r.flows, d);
      && d != "" && st.subs[c].channel != "" && Planned(ws, d, c)
      && (s.Some? ==> HasChannel(s.value, c))
      && (s.None? ==> Serves(st.flows, d).None? && !es[WantOf(ws, d).value].bind && st.subs[c].status == Active)
  {
    hide TableOk, Rebuilt, Serves;
    var d := st.subs[c].device;
    RebuildChannel(st, ws, es, c);
    if Planned(ws, d, c) {
      var k := WantOf(ws, d).value;
      NamedWant(ws, st.subs, k);
      assert SlotsOk(ws[k], st.subs, |st.subs|);
      RebuildServes(st, ws, es, d);
    }
  }

  /** What a subscribed channel says afterwards: active if its device is received as planned,
      pending if it has no place in the plan or could be bound and is not received. */
  lemma StatusIsTrue(st: State, ws: seq<Want>, es: seq<Answer>, c: nat)
    requires TableOk(st.flows) && PlanOk(ws, st.subs, |st.subs|) && |ws| <= |es| && c < |st.subs|
    requires st.subs[c].channel != "" && st.subs[c].status != Unset
    ensures var r := Rebuilt(st, ws, es); var d := st.subs[c].device; var w := WantOf(ws, d);
      && |r.subs| == |st.subs| && r.subs[c].status != Unset
      && if !Planned(ws, d, c) then r.subs[c].status == Pending
         else
           && (Serves(r.flows, d) == Some(ws[w.value].slots) ==> r.subs[c].status == Active)
           && (Serves(r.flows, d).None? && es[w.value].bind ==> r.subs[c].status == Pending)
  {
    hide TableOk, Rebuilt, Serves;
    var d := st.subs[c].device;
    RebuildChannel(st, ws, es, c);
    if Planned(ws, d, c) {
      NamedWant(ws, st.subs, WantOf(ws, d).value);
      RebuildServes(st, ws, es, d);
    }
  }

  /** The invariant of the subscriber: a rebuild keeps it, however binds and requests
      turn out. */
  lemma RebuildFits(st: State, ws: seq<Want>, es: seq<Answer>)
    requires TableOk(st.flows) && PlanOk(ws, st.subs, |st.subs|) && |ws| <= |es| && Fits(st)
    ensures TableOk(Rebuilt(st, ws, es).flows) && Fits(Rebuilt(st, ws, es)) && SameNames(st.subs, Rebuilt(st, ws, es).subs)
  {
    hide TableOk, PlanOk, Serves, Rebuilt, Planned;
    var r := Rebuilt(st, ws, es);
    RebuildServes(st, ws, es, "?");
    forall c | 0 <= c < |r.subs| && r.subs[c].status == Active
      ensures r.subs[c].channel != "" && (Serves(r.flows, r.subs[c].device).Some? ==> HasChannel(Serves(r.flows, r.subs[c].device).value, c))
    {
      ActiveAfter(st, ws, es, c);
    }
  }

  /** No channel that says active is left behind by a socket that could not be bound. */
  ghost predicate NoneStranded(st: State, ws: seq<Want>, es: seq<Answer>)
    requires |ws| <= |es|
  {
    forall k, c :: 0 <= k < |ws| && 0 <= c < |st.subs| && Serves(st.flows, ws[k].device).None? && !es[k].bind && HasChannel(ws[k].slots, c) ==>
      st.subs[c].status != Active
  }

  /** After a rebuild every active channel is on the flow of its own device, exactly
      when no bind failure met a channel that was still marked active with its flow
      gone; so always when the sockets can be bound. */
  lemma RebuildIsSoundExactly(st: State, ws: seq<Want>, es: seq<Answer>)
    requires TableOk(st.flows) && PlanOk(ws, st.subs, |st.subs|) && |ws| <= |es| && Fits(st)
    ensures Sound(Rebuilt(st, ws, es)) <==> NoneStranded(st, ws, es)
  {
    hide TableOk, PlanOk, Serves, Rebuilt, Planned;
    var r := Rebuilt(st, ws, es);
    RebuildServes(st, ws, es, "?");
    forall c | 0 <= c < |r.subs| && r.subs[c].status == Active
      ensures st.subs[c].device != "" && st.subs[c].channel != ""
      ensures Serves(r.flows, st.subs[c].device).Some? ==> HasChannel(Serves(r.flows, st.subs[c].device).value, c)
      ensures NoneStranded(st, ws, es) ==> Serves(r.flows, st.subs[c].device).Some?
    {
      ActiveAfter(st, ws, es, c);
      PlannedWant(st, ws, c);
    }
    forall k, c | 0 <= k < |ws| && 0 <= c < |st.subs| && Serves(st.flows, ws[k].device).None? && !es[k].bind && HasChannel(ws[k].slots, c)
      ensures st.subs[c].status == Active ==> r.subs[c].status == Active && Serves(r.flows, r.subs[c].device).None?
    {
      StrandedStaysActive(st, ws, es, k, c);
    }
  }

  lemma PlannedWant(st: State, ws: seq<Want>, c: nat)
    requires PlanOk(ws, st.subs, |st.subs|) && c < |st.subs| && Planned(ws, st.subs[c].device, c)
    ensures var k := WantOf(ws, st.subs[c].device);
      k.Some? && k.value < |ws| && ws[k.value].device == st.subs[c].device && HasChannel(ws[k.value].slots, c)
  {}

  /** A bind failure leaves the status as it was: a channel whose flow had died stays
      active with nothing received, and is not retried as pending. */
  lemma StrandedStaysActive(st: State, ws: seq<Want>, es: seq<Answer>, k: nat, c: nat)
    requires TableOk(st.flows) && PlanOk(ws, st.subs, |st.subs|) && |ws| <= |es| && k < |ws| && c < |st.subs|
    requires Serves(st.flows, ws[k].device).None? && !es[k].bind && HasChannel(ws[k].slots, c)
    ensures var r := Rebuilt(st, ws, es);
      |r.subs| == |st.subs| && r.subs[c].status == st.subs[c].status && r.subs[c].device == ws[k].device
      && Serves(r.flows, ws[k].device).None?
  {
    hide TableOk, Rebuilt, Serves;
    NamedWant(ws, st.subs, k);
    assert SlotsOk(ws[k], st.subs, |st.subs|);
    RebuildChannel(st, ws, es, c);
    RebuildServes(st, ws, es, ws[k].device);
  }

  // ----- whose channel it is -----------------------------------------------

  /** An answer of a lookup, with the names that were looked up. */
  datatype Resolved = Resolved(channel: string, device: string, tx: Tx)

  /** Some lookup of just these names has answered with this transmit id. */
  ghost predicate Known(told: set<Resolved>, sub: Sub, id: int)
  {
    exists r :: r in told && r.channel == sub.channel && r.device == sub.device && r.tx.id == id
  }

  /** Every resolution in use is an answer to the names of its channel. */
  ghost predicate FoundKnown(subs: seq<Sub>, found: seq<Option<Tx>>, told: set<Resolved>)
  {
    |subs| == |found| && forall c :: 0 <= c < |subs| && found[c].Some? ==> Resolved(subs[c].channel, subs[c].device, found[c].value) in told
  }

  /** A slot of a want is an answer to the names of its channel, at our rate. */
  ghost predicate SlotKnown(s: Slot, subs: seq<Sub>, told: set<Resolved>, rate: int)
  {
    s.ch < |subs| && exists r :: r in told && r.channel == subs[s.ch].channel && r.device == subs[s.ch].device && r.tx.id == s.id && r.tx.rate == rate
  }

  ghost predicate WantsKnown(ws: seq<Want>, subs: seq<Sub>, told: set<Resolved>, rate: int)
  {
    forall k, j :: 0 <= k < |ws| && 0 <= j < |ws[k].slots| ==> SlotKnown(ws[k].slots[j], subs, told, rate)
  }

  /** Every slot of the plan asks for what the names of its channel stand for, and only at
      our rate. */
  lemma {:induction false} PlanKnown(subs: seq<Sub>, found: seq<Option<Tx>>, told: set<Resolved>, rate: int, n: nat)
    requires FoundKnown(subs, found, told) && n <= |subs|
    ensures WantsKnown(Plan(subs, found, rate, n), subs, told, rate)
  {
    if n > 0 {
      hide SlotKnown;
      PlanKnown(subs, found, told, rate, n - 1);
      if found[n - 1].Some? && found[n - 1].value.rate == rate { FoundSlot(subs, found, told, rate, n - 1); }
    }
  }

  lemma FoundSlot(subs: seq<Sub>, found: seq<Option<Tx>>, told: set<Resolved>, rate: int, c: nat)
    requires FoundKnown(subs, found, told) && c < |subs| && found[c].Some? && found[c].value.rate == rate
    ensures SlotKnown(Slot(found[c].value.id, c), subs, told, rate)
  {
    assert Resolved(subs[c].channel, subs[c].device, found[c].value) in told;
  }

  /** Channel c plays, from these slots, what its names stand for. */
  ghost predicate InTune(slots: seq<Slot>, c: nat, sub: Sub, told: set<Resolved>)
  {
    exists k :: 0 <= k < |slots| && slots[k].ch == c && Known(told, sub, slots[k].id)
  }

  /** An active channel whose device has a flow plays from it what its names stand for. */
  ghost predicate Tuned(st: State, told: set<Resolved>)
  {
    forall c :: 0 <= c < |st.subs| && st.subs[c].status == Active ==>
      var s := Serves(st.flows, st.subs[c].device); s.Some? ==> InTune(s.value, c, st.subs[c], told)
  }

  lemma WantInTune(ws: seq<Want>, subs: seq<Sub>, told: set<Resolved>, rate: int, k: nat, c: nat)
    requires WantsKnown(ws, subs, told, rate) && k < |ws| && c < |subs| && HasChannel(ws[k].slots, c)
    ensures InTune(ws[k].slots, c, subs[c], told)
  {
    var j :| 0 <= j < |ws[k].slots| && ws[k].slots[j].ch == c;
    assert SlotKnown(ws[k].slots[j], subs, told, rate);
  }

  /** How a channel can be active after a rebuild with a flow to play from: the flow is the
      one wanted, or nothing has changed for it. */
  lemma ActiveServed(st: State, ws: seq<Want>, es: seq<Answer>, c: nat)
    requires TableOk(st.flows) && PlanOk(ws, st.subs, |st.subs|) && |ws| <= |es| && c < |st.subs|
    requires c < |Rebuilt(st, ws, es).subs| && Rebuilt(st, ws, es).subs[c].status == Active
    requires st.subs[c].status == Active ==> st.subs[c].channel != ""
    ensures var r := Rebuilt(st, ws, es); var d := st.subs[c].device; var s := Serves(r.flows, d); var w := WantOf(ws, d);
      && d != "" && w.Some? && HasChannel(ws[w.value].slots, c)
      && (s.Some? ==> s == Some(ws[w.value].slots) || (s == Serves(st.flows, d) && st.subs[c].status == Active))
  {
    hide TableOk, Rebuilt, Serves;
    var d := st.subs[c].device;
    RebuildChannel(st, ws, es, c);
    if Planned(ws, d, c) {
      var k := WantOf(ws, d).value;
      NamedWant(ws, st.subs, k);
      RebuildServes(st, ws, es, d);
    }
  }

  /** A rebuild leaves every active channel on what its names stand for, whatever is bound
      and granted. */
  lemma RebuildTuned(st: State, ws: seq<Want>, es: seq<Answer>, told: set<Resolved>, rate: int)
    requires TableOk(st.flows) && PlanOk(ws, st.subs, |st.subs|) && |ws| <= |es| && Fits(st)
    requires Tuned(st, told) && WantsKnown(ws, st.subs, told, rate)
    ensures Tuned(Rebuilt(st, ws, es), told)
  {
    hide TableOk, PlanOk, Serves, Rebuilt, WantsKnown, InTune, HasChannel;
    var r := Rebuilt(st, ws, es);
    RebuildServes(st, ws, es, "?");
    forall c | 0 <= c < |r.subs| && r.subs[c].status == Active && Serves(r.flows, r.subs[c].device).Some?
      ensures InTune(Serves(r.flows, r.subs[c].device).value, c, r.subs[c], told)
    {
      ActiveServed(st, ws, es, c);
      var w := WantOf(ws, st.subs[c].device);
      WantInTune(ws, st.subs, told, rate, w.value, c);
      InTuneByName(Serves(r.flows, r.subs[c].device).value, c, st.subs[c], r.subs[c], told);
    }
  }

  lemma InTuneByName(slots: seq<Slot>, c: nat, a: Sub, b: Sub, told: set<Resolved>)
    requires InTune(slots, c, a, told) && a.channel == b.channel && a.device == b.device
    ensures InTune(slots, c, b, told)
  {
    var k :| 0 <= k < |slots| && slots[k].ch == c && Known(told, a, slots[k].id);
    assert Known(told, b, slots[k].id);
  }

  lemma MoreTold(st: State, told: set<Resolved>, more: set<Resolved>)
    requires Tuned(st, told) && told <= more
    ensures Tuned(st, more)
  {
    forall c | 0 <= c < |st.subs| && st.subs[c].status == Active && Serves(st.flows, st.subs[c].device).Some?
      ensures InTune(Serves(st.flows, st.subs[c].device).value, c, st.subs[c], more)
    {
      var slots := Serves(st.flows, st.subs[c].device).value;
      var k :| 0 <= k < |slots| && slots[k].ch == c && Known(told, st.subs[c], slots[k].id);
      assert Known(more, st.subs[c], slots[k].id);
    }
  }

  // ----- make before break, over a whole rebuild ---------------------------

  ghost predicate Wanted(ws: seq<Want>, d: string, s: Slot)
  {
    var w := WantOf(ws, d);
    w.Some? && s in ws[w.value].slots
  }

  /** No replacement is refused. */
  ghost predicate NoRefusal(st: State, ws: seq<Want>, es: seq<Answer>)
    requires |ws| <= |es|
  {
    forall k :: 0 <= k < |ws| && Serves(st.flows, ws[k].device).Some? ==> es[k].first
  }

  /** Every table of the trail that is not in an earlier one carries s from d. */
  ghost predicate TrailCarries(before: State, after: State, d: string, s: Slot)
  {
    Carries(after.flows, d, s) && forall t :: t in after.trail && t !in before.trail ==> Carries(t, d, s)
  }

  lemma {:induction false} StoppingCarries(fs: seq<Flow>, ws: seq<Want>, n: nat, d: string, s: Slot, t: seq<Flow>)
    requires TableOk(fs) && n <= |fs| && Carries(fs, d, s) && WantOf(ws, d).Some? && t in Stopping(fs, ws, n)
    ensures Carries(t, d, s)
  {
    if n > 0 {
      if t == Reconciled(fs, ws, n) {
        ReconcilingNeverBreaks(fs, ws, n, d, s);
      } else {
        StoppingCarries(fs, ws, n - 1, d, s, t);
      }
    }
  }

  lemma BringingCarries(st: State, ws: seq<Want>, k: nat, e: Answer, d: string, s: Slot)
    requires Ready(st, ws) && k < |ws| && d != "" && Carries(st.flows, d, s) && Wanted(ws, d, s)
    requires Serves(st.flows, ws[k].device).Some? ==> e.first
    ensures TrailCarries(st, Bringing(st, ws[k], e), d, s)
  {
    hide Bring, Carries, Ready;
    var c := Bring(st.flows, ws[k], e);
    NamedWant(ws, st.subs, k) by { ReadyPlan(st, ws); }
    forall t | t in c.steps
      ensures Carries(t, d, s)
    {
      TableOfReady(st, ws);
      BringNeverBreaks(st.flows, ws[k], e, d, s, t);
    }
    assert c.steps != [] ==> c.steps[|c.steps| - 1] in c.steps;
  }

  lemma ReadyPlan(st: State, ws: seq<Want>)
    requires Ready(st, ws)
    ensures PlanOk(ws, st.subs, |st.subs|)
  {}

  lemma TableOfReady(st: State, ws: seq<Want>)
    requires Ready(st, ws)
    ensures TableOk(st.flows)
  {}

  lemma {:induction false} BringAllCarries(st: State, ws: seq<Want>, es: seq<Answer>, n: nat, d: string, s: Slot)
    requires Ready(st, ws) && n <= |ws| <= |es| && d != "" && Carries(st.flows, d, s) && Wanted(ws, d, s) && NoRefusal(st, ws, es)
    ensures TrailCarries(st, BringAll(st, ws, es, n), d, s)
  {
    if n > 0 {
      hide Ready, Carries, Wanted, Bringing, TrailCarries, WantDone, OthersSame, SameNames, Serves;
      BringAllCarries(st, ws, es, n - 1, d, s);
      var m := BringAll(st, ws, es, n - 1);
      BringAllSettles(st, ws, es, n - 1);
      assert WantIntact(st, m, ws[n - 1]);
      assert Serves(m.flows, ws[n - 1].device) == Serves(st.flows, ws[n - 1].device);
      TrailTwice(st, m, m, d, s);
      BringingCarries(m, ws, n - 1, es[n - 1], d, s);
      TrailTwice(st, m, Bringing(m, ws[n - 1], es[n - 1]), d, s);
    } else {
      TrailTwice(st, st, st, d, s);
    }
  }

  lemma TrailTwice(a: State, m: State, b: State, d: string, s: Slot)
    ensures Carries(a.flows, d, s) ==> TrailCarries(a, a, d, s)
    ensures TrailCarries(a, m, d, s) ==> Carries(m.flows, d, s)
    ensures TrailCarries(a, m, d, s) && TrailCarries(m, b, d, s) ==> TrailCarries(a, b, d, s)
  {}

  /** Make before break: if no replacement is refused, then in every table a rebuild
      passes through, each transmit channel that was received and is still wanted
      goes on being carried to its local channel by some active flow. */
  lemma RebuildNeverBreaks(st: State, ws: seq<Want>, es: seq<Answer>, d: string, s: Slot)
    requires TableOk(st.flows) && PlanOk(ws, st.subs, |st.subs|) && |ws| <= |es| && st.trail == []
    requires d != "" && Carries(st.flows, d, s) && Wanted(ws, d, s) && NoRefusal(st, ws, es)
    ensures TrailCarries(st, Rebuilt(st, ws, es), d, s)
  {
    hide TableOk, Ready, Carries, BringAll, Serves;
    var m := Reconcile(st, ws);
    ReconcileReady(st, ws);
    ReconcilingNeverBreaks(st.flows, ws, |st.flows|, d, s);
    forall k | 0 <= k < |ws| && Serves(m.flows, ws[k].device).Some?
      ensures es[k].first
    {
      NamedWant(ws, st.subs, k);
    }
    BringAllCarries(m, ws, es, |ws|, d, s);
    forall t | t in m.trail
      ensures Carries(t, d, s)
    {
      StoppingCarries(st.flows, ws, |st.flows|, d, s, t);
    }
  }

  // ----- whole runs of the subscriber --------------------------------------

  /** The controller subscribes or unsubscribes a channel, a rebuild runs, or a flow
      is found dead and stopped. */
  datatype Event =
    | Subscribe(c: nat, channel: string, device: string)
    | Rebuild(found: seq<Option<Tx>>, rate: int, answers: seq<Answer>)
    | Stall(i: nat)

  function Subscribed(subs: seq<Sub>, c: nat, channel: string, device: string): seq<Sub>
    requires c < |subs|
  {
    subs[c := if channel == "" then Sub("", "", Unset) else Sub(channel, device, Pending)]
  }

  ghost predicate Enabled(st: State, e: Event)
  {
    match e
    case Subscribe(c, _, _) => c < |st.subs|
    case Rebuild(found, rate, answers) => AnswersOk(st.subs, found) && |answers| == MAX_FLOWS
    case Stall(i) => i < |st.flows| && st.flows[i].active
  }

  ghost function Apply(st: State, e: Event): State
    requires Enabled(st, e) && |st.subs| == NCH
  {
    match e
    case Subscribe(c, channel, device) => st.(subs := Subscribed(st.subs, c, channel, device))
    case Rebuild(found, rate, answers) =>
      PlanIsOk(st.subs, found, rate, |st.subs|);
      Rebuilt(st.(trail := []), Plan(st.subs, found, rate, |st.subs|), answers)
    case Stall(i) =>
      var flows := TearDown(st.flows, i);
      State(flows, st.subs, st.trail + [flows])
  }

  ghost predicate Inv(st: State) { TableOk(st.flows) && |st.subs| == NCH && Fits(st) }

  lemma SubscribeKeeps(st: State, c: nat, channel: string, device: string)
    requires Inv(st) && c < |st.subs|
    ensures Inv(st.(subs := Subscribed(st.subs, c, channel, device)))
  {}

  lemma StallKeeps(st: State, i: nat)
    requires Inv(st) && i < |st.flows| && st.flows[i].active
    ensures Inv(Apply(st, Stall(i))) && Serves(TearDown(st.flows, i), st.flows[i].device) == None
  {
    var r := Apply(st, Stall(i));
    forall d | d != "" && d != st.flows[i].device
      ensures Serves(r.flows, d) == Serves(st.flows, d)
    {
      var at := First(st.flows, d);
      if at.Some? { FirstIs(r.flows, d, at.value); }
    }
  }

  lemma SubscribeTuned(st: State, c: nat, channel: string, device: string, told: set<Resolved>)
    requires Tuned(st, told) && c < |st.subs|
    ensures Tuned(st.(subs := Subscribed(st.subs, c, channel, device)), told)
  {
    hide Serves, InTune;
  }

  lemma StallTuned(st: State, i: nat, told: set<Resolved>)
    requires Inv(st) && Tuned(st, told) && i < |st.flows| && st.flows[i].active
    ensures |st.subs| == NCH && Tuned(Apply(st, Stall(i)), told)
  {
    var r := Apply(st, Stall(i));
    StallKeeps(st, i);
    forall c | 0 <= c < |r.subs| && r.subs[c].status == Active && Serves(r.flows, r.subs[c].device).Some?
      ensures Serves(r.flows, r.subs[c].device) == Serves(st.flows, st.subs[c].device)
    {
      StallElsewhere(st, i, st.subs[c].device);
    }
    hide InTune, Serves, Inv, TableOk;
  }

  lemma StallElsewhere(st: State, i: nat, d: string)
    requires TableOk(st.flows) && i < |st.flows| && st.flows[i].active && Serves(TearDown(st.flows, i), d).Some?
    ensures Serves(TearDown(st.flows, i), d) == Serves(st.flows, d)
  {
    var r := TearDown(st.flows, i);
    var j := First(r, d).value;
    assert r[j].active && j != i;
    FirstIs(st.flows, d, j);
  }

  lemma StepKeeps(st: State, e: Event)
    requires Inv(st) && Enabled(st, e)
    ensures Inv(Apply(st, e))
    ensures e.Rebuild? && (forall k :: 0 <= k < |e.answers| ==> e.answers[k].bind) ==> Sound(Apply(st, e))
  {
    match e
    case Subscribe(c, channel, device) => SubscribeKeeps(st, c, channel, device);
    case Stall(i) => StallKeeps(st, i);
    case Rebuild(found, rate, answers) =>
      hide Rebuilt, TableOk, Serves, PlanOk;
      var ws := Plan(st.subs, found, rate, |st.subs|);
      PlanIsOk(st.subs, found, rate, |st.subs|);
      WantsOfPlan(ws, st.subs);
      RebuildFits(st.(trail := []), ws, answers);
      RebuildIsSoundExactly(st.(trail := []), ws, answers);
  }

  /** Why a dead flow is stopped first: a rebuild leaves it alone as long as its
      channels are unchanged, and asks for it again once it is gone. */
  lemma DeadFlowIsRequestedAgain(st: State, i: nat, ws: seq<Want>, es: seq<Answer>, k: nat)
    requires Inv(st) && i < |st.flows| && st.flows[i].active && PlanOk(ws, st.subs, |st.subs|) && k < |ws| <= |es|
    requires ws[k] == Want(st.flows[i].device, st.flows[i].slots)
    ensures var r := Rebuilt(st, ws, es).flows; |r| == |st.flows| && r[i] == st.flows[i]
    ensures var after := Rebuilt(Apply(st, Stall(i)), ws, es);
      Serves(after.flows, ws[k].device) == if es[k].bind && es[k].first then Some(ws[k].slots) else None
  {
    hide BringAll, Reconcile, PlanOk, Serves, Fits, TearDown;
    var d := ws[k].device;
    assert d != "";
    NamedWant(ws, st.subs, k);
    StallKeeps(st, i);
    RebuildServes(Apply(st, Stall(i)), ws, es, d);
    SameFlowStays(st, ws, es, |ws|, i);
  }

  /** And how a channel is stranded: its flow dies while it is active, and the socket for
      asking again cannot be bound. */
  lemma StallThenBindFailureStrands(st: State, i: nat, ws: seq<Want>, es: seq<Answer>, k: nat, c: nat)
    requires Inv(st) && i < |st.flows| && st.flows[i].active && PlanOk(ws, st.subs, |st.subs|) && k < |ws| <= |es|
    requires ws[k] == Want(st.flows[i].device, st.flows[i].slots) && !es[k].bind
    requires c < |st.subs| && HasChannel(ws[k].slots, c) && st.subs[c].status == Active
    ensures var r := Rebuilt(Apply(st, Stall(i)), ws, es);
      |r.subs| == |st.subs| && !Sound(r) && r.subs[c].status == Active && Serves(r.flows, ws[k].device).None?
  {
    hide Rebuilt, PlanOk, Serves, TableOk;
    StallKeeps(st, i);
    StrandedStaysActive(Apply(st, Stall(i)), ws, es, k, c);
  }

  /** The flow of a want that is as wanted is never touched. */
  lemma {:induction false} SameFlowStays(st: State, ws: seq<Want>, es: seq<Answer>, n: nat, i: nat)
    requires TableOk(st.flows) && PlanOk(ws, st.subs, |st.subs|) && n <= |ws| <= |es| && i < |st.flows| && Same(st.flows, ws, i)
    ensures var r := BringAll(Reconcile(st, ws), ws, es, n).flows;
      |r| == |st.flows| && r[i] == st.flows[i]
  {
    hide Ready, PlanOk, Serves, TableOk, Bring, SameNames, WantIntact, WantDone, OthersSame;
    var m := Reconcile(st, ws);
    ReconcileReady(st, ws);
    if n == 0 {
      ReconciledSlots(st.flows, ws, |st.flows|);
    } else {
      SameFlowStays(st, ws, es, n - 1, i);
      BringAllSettles(m, ws, es, n - 1);
      WantsOfPlan(ws, st.subs);
      TableOfReady(BringAll(m, ws, es, n - 1), ws);
      SlotStays(BringAll(m, ws, es, n - 1).flows, ws, n - 1, es[n - 1], i);
    }
  }

  lemma SlotStays(fs: seq<Flow>, ws: seq<Want>, k: nat, e: Answer, i: nat)
    requires TableOk(fs) && WantsOk(ws) && k < |ws| && i < |fs| && Same(fs, ws, i)
    ensures var r := Last(fs, Bring(fs, ws[k], e).steps);
      |r| == |fs| && r[i] == fs[i]
  {
    WantIs(ws, k);
    ServesFirst(fs, ws[k].device);
    FirstIs(fs, fs[i].device, i);
    BringResult(fs, ws[k], e);
    if Free(fs).Some? { FreeIsIdle(fs); }
  }

  ghost predicate Legal(st: State, es: seq<Event>)
    decreases |es|, 0
  {
    es == []
    || (Legal(st, es[..|es| - 1])
        && var m := Run(st, es[..|es| - 1]); |m.subs| == NCH && Enabled(m, es[|es| - 1]))
  }

  ghost function Run(st: State, es: seq<Event>): State
    requires Legal(st, es)
    decreases |es|, 1
  {
    if es == [] then st else Apply(Run(st, es[..|es| - 1]), es[|es| - 1])
  }

  /** In every run, at every moment: a slot is occupied exactly when its flow is up,
      no two flows serve one transmitter, and an active channel whose transmitter has
      a flow is on that flow. */
  lemma {:induction false} RunInv(st: State, es: seq<Event>)
    requires Inv(st) && Legal(st, es)
    ensures Inv(Run(st, es))
  {
    if es != [] {
      hide Apply, Inv, Enabled;
      RunInv(st, es[..|es| - 1]);
      StepKeeps(Run(st, es[..|es| - 1]), es[|es| - 1]);
    }
  }

  lemma RunNothing(st: State)
    ensures Legal(st, []) && Run(st, []) == st
  {}

  lemma RunExtends(st: State, es: seq<Event>, e: Event)
    requires Inv(st) && Legal(st, es) && Enabled(Run(st, es), e)
    ensures Legal(st, es + [e]) && |Run(st, es).subs| == NCH && Run(st, es + [e]) == Apply(Run(st, es), e)
  {
    RunInv(st, es);
    assert (es + [e])[..|es|] == es;
  }

  // ----- what the second stage notes for the third -------------------------

  /** After the first n slots: a want whose flow was found as wanted is done, one
      whose flow was found with other channels is to retire it. */
  ghost predicate Marked(fs: seq<Flow>, ws: seq<Want>, done: seq<bool>, retires: seq<Option<nat>>, n: nat)
  {
    && |done| == |retires| == |ws|
    && forall k :: 0 <= k < |ws| ==>
         var j := First(fs, ws[k].device);
         var seen := j.Some? && j.value < n && j.value < |fs|;
         && done[k] == (seen && fs[j.value].slots == ws[k].slots)
         && retires[k] == (if seen && fs[j.value].slots != ws[k].slots then j else None)
  }

  lemma NothingMarked(fs: seq<Flow>, ws: seq<Want>, done: seq<bool>, retires: seq<Option<nat>>)
    requires |done| == |retires| == |ws|
    requires forall k :: 0 <= k < |ws| ==> !done[k] && retires[k] == None
    ensures Marked(fs, ws, done, retires, 0)
  {}

  lemma MarkedLengths(fs: seq<Flow>, ws: seq<Want>, done: seq<bool>, retires: seq<Option<nat>>, n: nat)
    requires Marked(fs, ws, done, retires, n)
    ensures |done| == |retires| == |ws|
  {}

  lemma MarkedSkips(fs: seq<Flow>, ws: seq<Want>, done: seq<bool>, retires: seq<Option<nat>>, n: nat)
    requires TableOk(fs) && WantsOk(ws) && n < |fs| && Marked(fs, ws, done, retires, n) && WantOf(ws, fs[n].device).None?
    ensures Marked(fs, ws, done, retires, n + 1)
  {}

  lemma MarkedMeets(fs: seq<Flow>, ws: seq<Want>, done: seq<bool>, retires: seq<Option<nat>>, n: nat, k: nat)
    requires TableOk(fs) && WantsOk(ws) && n < |fs| && Marked(fs, ws, done, retires, n)
    requires k < |ws| && ws[k].device == fs[n].device
    ensures !done[k] && retires[k].None? && fs[n].active && WantOf(ws, fs[n].device) == Some(k)
    ensures if fs[n].slots == ws[k].slots then Marked(fs, ws, done[k := true], retires, n + 1)
            else Marked(fs, ws, done, retires[k := Some(n)], n + 1)
  {
    WantIs(ws, k);
    FirstIs(fs, fs[n].device, n);
  }

  /** Stopping other flows does not change what was noted about these. */
  lemma MarkedKept(fs: seq<Flow>, ws: seq<Want>, done: seq<bool>, retires: seq<Option<nat>>)
    requires TableOk(fs) && WantsOk(ws) && Marked(fs, ws, done, retires, |fs|)
    ensures Marked(Reconciled(fs, ws, |fs|), ws, done, retires, |fs|)
  {
    var r := Reconciled(fs, ws, |fs|);
    ReconciledServes(fs, ws, "?");
    ReconciledSlots(fs, ws, |fs|);
    forall k | 0 <= k < |ws|
      ensures var j := First(fs, ws[k].device); First(r, ws[k].device) == j && (j.Some? ==> r[j.value] == fs[j.value])
    {
      WantIs(ws, k);
      PlaceKept(fs, ws, k);
    }
  }

  lemma PlaceKept(fs: seq<Flow>, ws: seq<Want>, k: nat)
    requires TableOk(fs) && WantsOk(ws) && k < |ws| && TableOk(Reconciled(fs, ws, |fs|))
    ensures var r := Reconciled(fs, ws, |fs|); var j := First(fs, ws[k].device);
      First(r, ws[k].device) == j && (j.Some? ==> r[j.value] == fs[j.value])
  {
    var r := Reconciled(fs, ws, |fs|);
    ReconciledSlots(fs, ws, |fs|);
    hide Reconciled;
    WantIs(ws, k);
    var j := First(fs, ws[k].device);
    if j.Some? { FirstIs(r, ws[k].device, j.value); }
  }

  /** Bringing one want up leaves the notes on the later ones true. */
  lemma BringKeepsPlaces(fs: seq<Flow>, ws: seq<Want>, k: nat, e: Answer, j: nat)
    requires TableOk(fs) && WantsOk(ws) && Within(fs, ws) && j < |ws| && k < |ws| && j != k
    ensures var r := Last(fs, Bring(fs, ws[k], e).steps); var at := First(fs, ws[j].device);
      |r| == |fs| && First(r, ws[j].device) == at && (at.Some? ==> at.value < |fs| && r[at.value] == fs[at.value])
  {
    hide Bring;
    var r := Last(fs, Bring(fs, ws[k], e).steps);
    BringSettles(fs, ws, k, e);
    BringResult(fs, ws[k], e);
    ServesFirst(fs, ws[j].device);
    ServesFirst(r, ws[j].device);
    if Free(fs).Some? { FreeIsIdle(fs); }
    var at := First(fs, ws[j].device);
    if at.Some? { FirstIs(r, ws[j].device, at.value); }
  }

  /** What the third stage goes by: the want is done, or this flow is to retire. */
  ghost predicate Noted(fs: seq<Flow>, w: Want, done: bool, retires: Option<nat>)
  {
    var j := First(fs, w.device);
    && done == (j.Some? && fs[j.value].slots == w.slots)
    && retires == (if j.Some? && fs[j.value].slots != w.slots then j else None)
  }

  lemma MarkedIsNoted(fs: seq<Flow>, ws: seq<Want>, done: seq<bool>, retires: seq<Option<nat>>, k: nat)
    requires Marked(fs, ws, done, retires, |fs|) && k < |ws|
    ensures k < |done| && k < |retires| && Noted(fs, ws[k], done[k], retires[k])
  {}

  lemma NotedStays(fs: seq<Flow>, ws: seq<Want>, k: nat, e: Answer, j: nat, done: bool, retires: Option<nat>)
    requires TableOk(fs) && WantsOk(ws) && Within(fs, ws) && j < |ws| && k < |ws| && j != k
    requires Noted(fs, ws[j], done, retires)
    ensures Noted(Last(fs, Bring(fs, ws[k], e).steps), ws[j], done, retires)
  {
    BringKeepsPlaces(fs, ws, k, e, j);
  }

  lemma NotedInReady(st: State, ws: seq<Want>, k: nat, e: Answer, j: nat, done: bool, retires: Option<nat>)
    requires Ready(st, ws) && j < |ws| && k < |ws| && j != k && Noted(st.flows, ws[j], done, retires)
    ensures Noted(Bringing(st, ws[k], e).flows, ws[j], done, retires)
  {
    NotedStays(st.flows, ws, k, e, j, done, retires);
  }

  lemma ReadyWants(st: State, ws: seq<Want>)
    requires Ready(st, ws)
    ensures WantsOk(ws) && |ws| <= MAX_FLOWS
  {}

  lemma ReadySlots(st: State, ws: seq<Want>, k: nat)
    requires Ready(st, ws) && k < |ws|
    ensures forall i :: 0 <= i < |ws[k].slots| ==> ws[k].slots[i].ch < |st.subs|
  {
    assert SlotsOk(ws[k], st.subs, |st.subs|);
  }

  // ----- the first stage, channel by channel -------------------------------

  lemma ScreenedIs(subs: seq<Sub>, found: seq<Option<Tx>>, rate: int, c: nat)
    requires AnswersOk(subs, found) && c < |subs|
    ensures Screened(subs, Plan(subs, found, rate, |subs|))[c] ==
      if subs[c].channel != "" && !Joins(Plan(subs, found, rate, c), subs[c], found[c], rate) then subs[c].(status := Pending) else subs[c]
  {
    PlanIsExact(subs, found, rate, |subs|, c);
  }
}
