/** The table of receive flows: at most four, one per transmitter, replaced
    make-before-break. Everything a rebuild does to it, want by want. */
module FlowTable {
  import opened Prelude

  const MAX_FLOWS := 4

  /** A transmit channel id and the local channel it plays on. */
  datatype Slot = Slot(id: int, ch: nat)

  datatype Flow = Flow(active: bool, device: string, slots: seq<Slot>)

  const IDLE_FLOW: Flow := Flow(false, "", [])

  /** What should be received from one transmitter. */
  datatype Want = Want(device: string, slots: seq<Slot>)

  /** How the environment answers one want: the socket, the first request, and the
      one made after the old flow was stopped. */
  datatype Answer = Answer(bind: bool, first: bool, second: bool)

  /** What becomes of the channels of a want. */
  datatype Effect = Untouched | Up | Down

  /** The tables passed through, in order, and the effect on the channels. */
  datatype Change = Change(steps: seq<seq<Flow>>, effect: Effect)

  // ----- looking things up -------------------------------------------------

  /** The first slot, from `from` on, that names this device. */
  function FirstFrom(fs: seq<Flow>, d: string, from: nat): (r: Option<nat>)
    requires from <= |fs|
    ensures r.Some? ==> from <= r.value < |fs| && fs[r.value].device == d
    ensures r.Some? ==> forall j :: from <= j < r.value ==> fs[j].device != d
    ensures r.None? ==> forall j :: from <= j < |fs| ==> fs[j].device != d
    decreases |fs| - from
  {
    if from == |fs| then None else if fs[from].device == d then Some(from) else FirstFrom(fs, d, from + 1)
  }

  function First(fs: seq<Flow>, d: string): (r: Option<nat>)
    ensures r.Some? ==> r.value < |fs| && fs[r.value].device == d
  {
    FirstFrom(fs, d, 0)
  }

  function Free(fs: seq<Flow>): (r: Option<nat>)
    ensures r.Some? ==> r.value < |fs| && fs[r.value].device == ""
  {
    First(fs, "")
  }

  function WantFrom(ws: seq<Want>, d: string, from: nat): (r: Option<nat>)
    requires from <= |ws|
    ensures r.Some? ==> from <= r.value < |ws| && ws[r.value].device == d
    ensures r.None? ==> forall j :: from <= j < |ws| ==> ws[j].device != d
    decreases |ws| - from
  {
    if from == |ws| then None else if ws[from].device == d then Some(from) else WantFrom(ws, d, from + 1)
  }

  function WantOf(ws: seq<Want>, d: string): (r: Option<nat>)
    ensures r.Some? ==> r.value < |ws| && ws[r.value].device == d
  {
    WantFrom(ws, d, 0)
  }

  // ----- what a table means ------------------------------------------------

  /** A slot is occupied exactly when its flow is up, and no transmitter has two. */
  ghost predicate TableOk(fs: seq<Flow>)
  {
    && |fs| == MAX_FLOWS
    && (forall i :: 0 <= i < |fs| ==> (fs[i].active <==> fs[i].device != ""))
    && (forall i, j :: 0 <= i < j < |fs| && fs[i].active ==> fs[i].device != fs[j].device)
  }

  /** What is received from a device: the table as a map. */
  function Serves(fs: seq<Flow>, d: string): Option<seq<Slot>>
  {
    var i := First(fs, d);
    if i.Some? && fs[i.value].active then Some(fs[i.value].slots) else None
  }

  /** Every flow is for a wanted device. */
  ghost predicate Within(fs: seq<Flow>, ws: seq<Want>)
  {
    forall i :: 0 <= i < |fs| && fs[i].active ==> WantOf(ws, fs[i].device).Some?
  }

  /** One want per device, each for a named device, no more than there are slots. */
  ghost predicate WantsOk(ws: seq<Want>)
  {
    && |ws| <= MAX_FLOWS
    && (forall k :: 0 <= k < |ws| ==> ws[k].device != "")
    && (forall j, k :: 0 <= j < k < |ws| ==> ws[j].device != ws[k].device)
  }

  lemma FirstIs(fs: seq<Flow>, d: string, i: nat)
    requires TableOk(fs) && i < |fs| && d != "" && fs[i].device == d
    ensures First(fs, d) == Some(i) && Serves(fs, d) == Some(fs[i].slots)
  {}

  lemma WantIs(ws: seq<Want>, k: nat)
    requires WantsOk(ws) && k < |ws|
    ensures WantOf(ws, ws[k].device) == Some(k)
  {}

  /** A wanted transmitter that has no flow always finds a free slot. */
  lemma FreeSlotForNewTransmitter(fs: seq<Flow>, ws: seq<Want>, k: nat)
    requires TableOk(fs) && WantsOk(ws) && Within(fs, ws) && k < |ws|
    requires Serves(fs, ws[k].device).None?
    ensures Free(fs).Some?
  {
    if fs[0].active && fs[1].active && fs[2].active {
      var a := WantOf(ws, fs[0].device).value;
      var b := WantOf(ws, fs[1].device).value;
      var c := WantOf(ws, fs[2].device).value;
      assert a != b && a != c && b != c && k != a && k != b && k != c;
      if fs[3].active {
        assert false;
      }
    }
  }

  // ----- reconciling -------------------------------------------------------

  function TearDown(fs: seq<Flow>, i: nat): seq<Flow>
    requires i < |fs|
  {
    fs[i := IDLE_FLOW]
  }

  /** The second stage of a rebuild: flows of devices no longer wanted are stopped. */
  function Reconciled(fs: seq<Flow>, ws: seq<Want>, n: nat): (r: seq<Flow>)
    requires n <= |fs|
    ensures |r| == |fs|
  {
    if n == 0 then fs
    else
      var r := Reconciled(fs, ws, n - 1);
      if r[n - 1].device != "" && (WantOf(ws, r[n - 1].device).None? || !r[n - 1].active) then TearDown(r, n - 1) else r
  }

  lemma {:induction false} ReconciledSlots(fs: seq<Flow>, ws: seq<Want>, n: nat)
    requires TableOk(fs) && n <= |fs|
    ensures var r := Reconciled(fs, ws, n);
      forall i :: 0 <= i < |fs| ==>
        r[i] == if i < n && fs[i].active && WantOf(ws, fs[i].device).None? then IDLE_FLOW else fs[i]
  {
    if n > 0 { ReconciledSlots(fs, ws, n - 1); }
  }

  /** It keeps exactly the flows of wanted devices, as they are. */
  lemma ReconciledServes(fs: seq<Flow>, ws: seq<Want>, d: string)
    requires TableOk(fs) && WantsOk(ws) && d != ""
    ensures var r := Reconciled(fs, ws, |fs|);
      TableOk(r) && Within(r, ws) && Serves(r, d) == if WantOf(ws, d).Some? then Serves(fs, d) else None
  {
    ReconciledSlots(fs, ws, |fs|);
    var r := Reconciled(fs, ws, |fs|);
    hide Reconciled;
    assert TableOk(r);
    hide TableOk, Serves;
    ServesFirst(fs, d);
    ServesFirst(r, d);
    if First(fs, d).Some? && WantOf(ws, d).Some? { FirstIs(r, d, First(fs, d).value); }
  }

  lemma ServesFirst(fs: seq<Flow>, d: string)
    requires TableOk(fs) && d != ""
    ensures match First(fs, d)
      case None => Serves(fs, d) == None
      case Some(i) => i < |fs| && fs[i].active && fs[i].device == d && Serves(fs, d) == Some(fs[i].slots)
  {}

  // ----- bringing one want up ----------------------------------------------

  /** The third stage for one want. A changed flow is replaced by a new one; only if
      that is refused is the old one stopped first. */
  function Bring(fs: seq<Flow>, w: Want, e: Answer): Change
  {
    var prior := First(fs, w.device);
    var free := Free(fs);
    if (prior.Some? && fs[prior.value].slots == w.slots) || free.None? then Change([], Untouched)
    else
      var i := free.value;
      var placed := fs[i := Flow(false, w.device, w.slots)];
      if !e.bind then Change([placed, fs[i := Flow(false, "", w.slots)]], Untouched)
      else
        var refused := !e.first && prior.Some?;
        var cleared := if refused then TearDown(placed, prior.value) else placed;
        var head := if refused then [placed, cleared] else [placed];
        if if refused then e.second else e.first then
          var up := cleared[i := Flow(true, w.device, w.slots)];
          Change(head + [up] + if prior.Some? && !refused then [TearDown(up, prior.value)] else [], Up)
        else
          Change(head + [cleared[i := Flow(false, "", w.slots)]], Down)
  }

  function Last(fs: seq<Flow>, steps: seq<seq<Flow>>): seq<Flow>
  {
    if steps == [] then fs else steps[|steps| - 1]
  }

  /** What is received from the device of a want, afterwards, given what was before.
      The replacement of a flow can be put off for lack of a slot; a first flow
      cannot. */
  ghost predicate Settled(before: Option<seq<Slot>>, after: Option<seq<Slot>>, w: Want, e: Answer)
  {
    if before == Some(w.slots) then after == before
    else if before.None? then after == if e.bind && e.first then Some(w.slots) else None
    else
      after == before
      || (e.bind && after == if e.first || e.second then Some(w.slots) else None)
  }

  /** A free slot left blank or given a first flow for d. */
  lemma FillSlot(fs: seq<Flow>, ws: seq<Want>, i: nat, d: string, f: Flow)
    requires TableOk(fs) && Within(fs, ws) && i < |fs| && !fs[i].active && d != "" && WantOf(ws, d).Some?
    requires Serves(fs, d).None? || f.device == ""
    requires if f.active then f.device == d else f.device == ""
    ensures TableOk(fs[i := f]) && Within(fs[i := f], ws)
    ensures f.active ==> Serves(fs[i := f], d) == Some(f.slots)
    ensures forall x :: x != "" && (x != d || !f.active) ==> Serves(fs[i := f], x) == Serves(fs, x)
  {
    var r := fs[i := f];
    if f.active { FirstIs(r, d, i); }
    forall x | x != "" && (x != d || !f.active)
      ensures Serves(r, x) == Serves(fs, x)
    {
      var at := First(fs, x);
      if at.Some? { FirstIs(r, x, at.value); }
    }
  }

  /** The flow of a device stopped. */
  lemma ClearSlot(fs: seq<Flow>, ws: seq<Want>, p: nat)
    requires TableOk(fs) && Within(fs, ws) && p < |fs| && fs[p].active
    ensures TableOk(TearDown(fs, p)) && Within(TearDown(fs, p), ws)
    ensures Serves(TearDown(fs, p), fs[p].device) == None
    ensures forall x :: x != "" && x != fs[p].device ==> Serves(TearDown(fs, p), x) == Serves(fs, x)
  {
    var r := TearDown(fs, p);
    forall x | x != "" && x != fs[p].device
      ensures Serves(r, x) == Serves(fs, x)
    {
      var at := First(fs, x);
      if at.Some? { FirstIs(r, x, at.value); }
    }
  }

  /** The table after one want, in one line: the flow replaced is gone if it was
      stopped, and the slot taken holds the new flow or is blank again. */
  lemma BringResult(fs: seq<Flow>, w: Want, e: Answer)
    requires TableOk(fs) && w.device != ""
    ensures var c := Bring(fs, w, e); var prior := First(fs, w.device);
      if c.steps == [] then c.effect == Untouched
      else
        Free(fs).Some?
        && var i := Free(fs).value;
           var kept := if c.effect != Untouched && prior.Some? then TearDown(fs, prior.value) else fs;
           Last(fs, c.steps) == kept[i := if c.effect == Up then Flow(true, w.device, w.slots) else Flow(false, "", w.slots)]
  {
  }

  lemma FreeIsIdle(fs: seq<Flow>)
    requires TableOk(fs) && Free(fs).Some?
    ensures Free(fs).value < |fs| && !fs[Free(fs).value].active
  {}

  /** How the answers decide the effect. */
  lemma BringAnswers(fs: seq<Flow>, w: Want, e: Answer)
    requires TableOk(fs) && w.device != ""
    ensures var c := Bring(fs, w, e); var before := Serves(fs, w.device);
      && (c.steps == [] <==> before == Some(w.slots) || Free(fs).None?)
      && (c.steps != [] ==> (c.effect == Untouched <==> !e.bind))
      && (c.steps != [] && e.bind ==> (c.effect == Up <==> e.first || (before.Some? && e.second)))
      && (c.steps == [] ==> c.effect == Untouched)
  {}

  /** One want settled: its own device is served as asked, nobody else notices. */
  lemma BringSettles(fs: seq<Flow>, ws: seq<Want>, k: nat, e: Answer)
    requires TableOk(fs) && WantsOk(ws) && Within(fs, ws) && k < |ws|
    ensures var c := Bring(fs, ws[k], e); var r := Last(fs, c.steps);
      && TableOk(r) && Within(r, ws)
      && Settled(Serves(fs, ws[k].device), Serves(r, ws[k].device), ws[k], e)
      && (forall d :: d != "" && d != ws[k].device ==> Serves(r, d) == Serves(fs, d))
      && (c.effect == Up ==> Serves(r, ws[k].device) == Some(ws[k].slots))
      && (c.effect == Down ==> Serves(r, ws[k].device) == None)
      && (c.effect == Untouched ==> Serves(r, ws[k].device) == Serves(fs, ws[k].device))
      && (c.effect == Untouched && Serves(fs, ws[k].device).None? ==> !e.bind)
      && (c.effect != Untouched ==> e.bind && Serves(fs, ws[k].device) != Some(ws[k].slots))
  {
    hide TableOk, Within, Serves, FirstFrom, WantFrom, Bring, Last;
    var w := ws[k];
    var c := Bring(fs, w, e);
    BringResult(fs, w, e);
    WantIs(ws, k);
    ServesFirst(fs, w.device);
    if Serves(fs, w.device).None? { FreeSlotForNewTransmitter(fs, ws, k); }
    if c.steps != [] {
      var i := Free(fs).value;
      var prior := First(fs, w.device);
      var f := if c.effect == Up then Flow(true, w.device, w.slots) else Flow(false, "", w.slots);
      FreeIsIdle(fs);
      if c.effect != Untouched && prior.Some? {
        ClearSlot(fs, ws, prior.value);
        FillSlot(TearDown(fs, prior.value), ws, i, w.device, f);
      } else {
        FillSlot(fs, ws, i, w.device, f);
      }
    }
    BringAnswers(fs, w, e);
    LastOfNone(fs);
  }

  lemma LastOfNone(fs: seq<Flow>)
    ensures Last(fs, []) == fs
  {}

  // ----- make before break -------------------------------------------------

  /** Some flow that is up carries this transmit channel of d to this local one. */
  ghost predicate Carries(fs: seq<Flow>, d: string, s: Slot)
  {
    exists i :: 0 <= i < |fs| && fs[i].active && fs[i].device == d && s in fs[i].slots
  }

  lemma CarriesServed(fs: seq<Flow>, d: string, s: Slot)
    requires TableOk(fs) && d != ""
    ensures Carries(fs, d, s) <==> Serves(fs, d).Some? && s in Serves(fs, d).value
  {
    ServesFirst(fs, d);
    if i :| 0 <= i < |fs| && fs[i].active && fs[i].device == d && s in fs[i].slots { FirstIs(fs, d, i); }
  }

  /** A flow elsewhere in the table goes on carrying. */
  lemma CarriesOn(fs: seq<Flow>, i: nat, t: seq<Flow>, s: Slot)
    requires i < |fs| <= |t| && fs[i].active && s in fs[i].slots && t[i] == fs[i]
    ensures Carries(t, fs[i].device, s)
  {}

  /** Bringing a want up, unless its replacement is refused, passes through no table
      that has lost a channel that was carried and is wanted. */
  lemma BringNeverBreaks(fs: seq<Flow>, w: Want, e: Answer, d: string, s: Slot, t: seq<Flow>)
    requires TableOk(fs) && w.device != "" && d != "" && Carries(fs, d, s) && (d == w.device ==> s in w.slots)
    requires (e.first || Serves(fs, w.device).None?) && t in Bring(fs, w, e).steps
    ensures Carries(t, d, s)
  {
    CarriesServed(fs, d, s);
    ServesFirst(fs, d);
    ServesFirst(fs, w.device);
    var at := First(fs, d).value;
    var c := Bring(fs, w, e);
    var i := Free(fs).value;
    FreeIsIdle(fs);
    assert at != i;
    if t[at] == fs[at] {
      CarriesOn(fs, at, t, s);
    } else {
      assert t[i] == Flow(true, w.device, w.slots);
      CarriesOn(t, i, t, s);
    }
  }

  /** It is the refusal that breaks: stopping the old flow first leaves a table in
      which nothing of that device is carried. */
  lemma RefusalBreaks(fs: seq<Flow>, w: Want, e: Answer)
    requires TableOk(fs) && w.device != "" && Serves(fs, w.device).Some?
    requires Bring(fs, w, e).effect != Untouched && !e.first
    ensures exists t :: t in Bring(fs, w, e).steps && forall s :: !Carries(t, w.device, s)
  {
    ServesFirst(fs, w.device);
    FreeIsIdle(fs);
    var c := Bring(fs, w, e);
    var t := c.steps[1];
    assert t in c.steps;
    assert forall j :: 0 <= j < |fs| && j != First(fs, w.device).value ==> !fs[j].active || fs[j].device != w.device;
    assert forall s :: !Carries(t, w.device, s);
  }

  /** Stopping the flows no longer wanted takes nothing wanted away. */
  lemma ReconcilingNeverBreaks(fs: seq<Flow>, ws: seq<Want>, n: nat, d: string, s: Slot)
    requires TableOk(fs) && n <= |fs| && Carries(fs, d, s) && WantOf(ws, d).Some?
    ensures Carries(Reconciled(fs, ws, n), d, s)
  {
    ReconciledSlots(fs, ws, n);
    var i :| 0 <= i < |fs| && fs[i].active && fs[i].device == d && s in fs[i].slots;
    CarriesOn(fs, i, Reconciled(fs, ws, n), s);
  }
}
