/** The subscriber task: channels, flows and the resolve cache, edited in place. */
module Subscriber {
  import opened Arith
  import opened FlowTable
  import opened Subscriptions
  import opened Prelude

  predicate Hit(entry: Option<Resolved>, sub: Sub)
  {
    entry.Some? && entry.value.channel == sub.channel && entry.value.device == sub.device
  }

  /** The resolution a rebuild works with: the cached one for exactly these names, else
      the answer of a new lookup. */
  function Found(entry: Option<Resolved>, sub: Sub, answer: Option<Tx>): Option<Tx>
  {
    if sub.channel == "" then None else if Hit(entry, sub) then Some(entry.value.tx) else answer
  }

  /** What the cache holds afterwards. */
  function Cached(entry: Option<Resolved>, sub: Sub, answer: Option<Tx>): Option<Resolved>
  {
    if sub.channel == "" then None
    else if Hit(entry, sub) then entry
    else if answer.Some? then Some(Resolved(sub.channel, sub.device, answer.value))
    else None
  }

  function FoundAll(cache: seq<Option<Resolved>>, subs: seq<Sub>, answers: seq<Option<Tx>>): (r: seq<Option<Tx>>)
    requires |cache| == |subs| == |answers|
    ensures |r| == |subs|
  {
    seq(|subs|, c requires 0 <= c < |subs| => Found(cache[c], subs[c], answers[c]))
  }

  /** A cached resolution is used exactly for its own names, and then nothing is looked up;
      else it is the answer for the names at hand. */
  lemma ResolvedByName(entry: Option<Resolved>, sub: Sub, answer: Option<Tx>)
    requires sub.channel != ""
    ensures entry.Some? && entry.value == Resolved(sub.channel, sub.device, entry.value.tx) ==>
      Found(entry, sub, answer) == Some(entry.value.tx) && Cached(entry, sub, answer) == entry
    ensures entry.None? || entry.value.channel != sub.channel || entry.value.device != sub.device ==>
      Found(entry, sub, answer) == answer
      && Cached(entry, sub, answer) == if answer.Some? then Some(Resolved(sub.channel, sub.device, answer.value)) else None
  {}

  /** What the lookups of a rebuild tell. */
  function Answered(subs: seq<Sub>, lookups: seq<Option<Tx>>): set<Resolved>
    requires |subs| == |lookups|
  {
    set c | 0 <= c < |subs| && subs[c].channel != "" && lookups[c].Some? :: Resolved(subs[c].channel, subs[c].device, lookups[c].value)
  }

  /** Everything in the cache is the answer of some lookup. */
  ghost predicate AllTold(cache: seq<Option<Resolved>>, told: set<Resolved>)
  {
    forall c :: 0 <= c < |cache| && cache[c].Some? ==> cache[c].value in told
  }

  /** With a cache that was told, every resolution of a rebuild is an answer to the names of
      its channel, and the cache stays so. */
  lemma FoundIsTold(cache: seq<Option<Resolved>>, subs: seq<Sub>, lookups: seq<Option<Tx>>, told: set<Resolved>)
    requires |cache| == |subs| == |lookups| && AllTold(cache, told)
    ensures FoundKnown(subs, FoundAll(cache, subs, lookups), told + Answered(subs, lookups))
    ensures forall c :: 0 <= c < |subs| && Cached(cache[c], subs[c], lookups[c]).Some? ==>
      Cached(cache[c], subs[c], lookups[c]).value in told + Answered(subs, lookups)
  {
    forall c | 0 <= c < |subs| && FoundAll(cache, subs, lookups)[c].Some?
      ensures Resolved(subs[c].channel, subs[c].device, FoundAll(cache, subs, lookups)[c].value) in told + Answered(subs, lookups)
    {
      if Hit(cache[c], subs[c]) {
        assert cache[c].value == Resolved(subs[c].channel, subs[c].device, cache[c].value.tx);
      }
    }
  }

  /** So a rebuild leaves every active channel on what its names stand for. */
  lemma RebuildTunes(st: State, cache: seq<Option<Resolved>>, lookups: seq<Option<Tx>>, rate: int, answers: seq<Answer>, told: set<Resolved>)
    requires Inv(st) && Tuned(st, told) && |cache| == |lookups| == NCH && AllTold(cache, told)
    requires Enabled(st, Event.Rebuild(FoundAll(cache, st.subs, lookups), rate, answers))
    ensures var found := FoundAll(cache, st.subs, lookups); var all := told + Answered(st.subs, lookups);
      && WantsKnown(Plan(st.subs, found, rate, NCH), st.subs, all, rate)
      && Tuned(Apply(st, Event.Rebuild(found, rate, answers)), all)
  {
    var found, all := FoundAll(cache, st.subs, lookups), told + Answered(st.subs, lookups);
    FoundIsTold(cache, st.subs, lookups, told);
    PlanKnown(st.subs, found, all, rate, NCH);
    PlanIsOk(st.subs, found, rate, NCH);
    MoreTold(st, told, all);
    Blank(st, all);
    var ws := Plan(st.subs, found, rate, NCH);
    hide Plan, FoundAll, Answered, FoundKnown, WantsKnown, PlanOk, TableOk, Tuned, Rebuilt, Fits;
    WantsOfPlan(ws, st.subs);
    RebuildTuned(st.(trail := []), ws, answers, all, rate);
  }

  lemma Blank(st: State, told: set<Resolved>)
    requires Inv(st) && Tuned(st, told)
    ensures Inv(st.(trail := [])) && Tuned(st.(trail := []), told)
  {
    hide InTune, Serves;
  }

  /** The largest latency demanded by a channel in the plan. */
  function Floor(subs: seq<Sub>, found: seq<Option<Tx>>, rate: int, n: nat): nat
    requires n <= |subs| == |found|
  {
    if n == 0 then 0
    else
      var floor := Floor(subs, found, rate, n - 1);
      if Joins(Plan(subs, found, rate, n - 1), subs[n - 1], found[n - 1], rate) then Max(floor, found[n - 1].value.latencyUs) else floor
  }

  lemma NothingPlanned(subs: seq<Sub>, found: seq<Option<Tx>>, rate: int)
    requires |subs| == |found|
    ensures Plan(subs, found, rate, 0) == [] && Floor(subs, found, rate, 0) == 0
  {}

  lemma PlanNext(subs: seq<Sub>, found: seq<Option<Tx>>, rate: int, c: nat)
    requires c < |subs| == |found|
    ensures var wants := Plan(subs, found, rate, c); var joins := Joins(wants, subs[c], found[c], rate);
      && Plan(subs, found, rate, c + 1) == (if joins then Adding(wants, subs[c].device, Slot(found[c].value.id, c)) else wants)
      && Floor(subs, found, rate, c + 1)
         == if joins then Max(Floor(subs, found, rate, c), found[c].value.latencyUs) else Floor(subs, found, rate, c)
  {}

  /** It is the least latency that suits every transmitter in the plan. */
  lemma {:induction false} FloorIsLeast(subs: seq<Sub>, found: seq<Option<Tx>>, rate: int, n: nat, bound: nat)
    requires n <= |subs| == |found|
    ensures Floor(subs, found, rate, n) <= bound <==>
      (forall c :: 0 <= c < n && Joins(Plan(subs, found, rate, c), subs[c], found[c], rate) ==> found[c].value.latencyUs <= bound)
  {
    hide Floor, Joins, Plan;
    FloorNext(subs, found, rate, n, bound);
    if n > 0 { FloorIsLeast(subs, found, rate, n - 1, bound); }
  }

  lemma FloorNext(subs: seq<Sub>, found: seq<Option<Tx>>, rate: int, n: nat, bound: nat)
    requires n <= |subs| == |found|
    ensures Floor(subs, found, rate, n) <= bound <==>
      n == 0 ||
      (Floor(subs, found, rate, n - 1) <= bound
       && (Joins(Plan(subs, found, rate, n - 1), subs[n - 1], found[n - 1], rate) ==> found[n - 1].value.latencyUs <= bound))
  {
    hide Plan;
  }

  /** A want that could be bound and yet is not served was refused. */
  lemma UnservedIsDown(st: State, ws: seq<Want>, k: nat, e: Answer)
    requires Ready(st, ws) && k < |ws| && e.bind && Serves(Bringing(st, ws[k], e).flows, ws[k].device).None?
    ensures Bring(st.flows, ws[k], e).effect == Down
  {
    hide Bring, Serves;
    BringSettles(st.flows, ws, k, e);
  }

  lemma OneMoreSlot(fs: seq<Flow>, ws: seq<Want>, i: nat)
    requires TableOk(fs) && i < |fs|
    ensures fs[i].device == "" <==> !fs[i].active
    ensures Reconciled(fs, ws, i)[i] == fs[i]
    ensures var r := Reconciled(fs, ws, i);
      Reconciled(fs, ws, i + 1) == (if fs[i].device != "" && (WantOf(ws, fs[i].device).None? || !fs[i].active) then TearDown(r, i) else r)
  {
    ReconciledSlots(fs, ws, i);
  }

  lemma BlankIsUnwanted(ws: seq<Want>)
    requires WantsOk(ws)
    ensures WantOf(ws, "").None?
  {}

  lemma SameWant(ws: seq<Want>, j: nat, k: nat)
    requires WantsOk(ws) && j < |ws| && k < |ws| && ws[j].device == ws[k].device
    ensures j == k
  {}

  /** Setting one more channel. */
  lemma OneMore(subs: seq<Sub>, slots: seq<Slot>, to: Status, k: nat)
    requires k < |slots| && slots[k].ch < |subs|
    ensures var r := SetStatus(subs, slots[..k], to); var c := slots[k].ch;
      SetStatus(subs, slots[..k + 1], to) == r[c := r[c].(status := to)]
  {
    var r := SetStatus(subs, slots[..k], to);
    forall c | 0 <= c < |subs|
      ensures HasChannel(slots[..k + 1], c) <==> HasChannel(slots[..k], c) || c == slots[k].ch
    {
      assert forall j :: 0 <= j < k ==> slots[..k + 1][j] == slots[..k][j];
      assert slots[..k + 1][k] == slots[k];
    }
  }

  class Subscriber {
    const flows: array<Flow>
    const subs: array<Sub>
    const cache: array<Option<Resolved>>
    var floorUs: nat
    var dirty: bool

    ghost var trail: seq<seq<Flow>>
    ghost var told: set<Resolved>       // every answer of every lookup so far

    ghost function View(): State
      reads `trail, flows, subs
    {
      State(flows[..], subs[..], trail)
    }

    /** No cache entry is for a device without a name. */
    ghost predicate CacheOk()
      reads cache
    {
      forall c :: 0 <= c < cache.Length && cache[c].Some? ==> cache[c].value.device != ""
    }

    ghost predicate Shape() { flows.Length == MAX_FLOWS && subs.Length == NCH && cache.Length == NCH }

    ghost predicate Valid()
      reads this, flows, subs, cache
    {
      Shape() && CacheOk() && Inv(View()) && AllTold(cache[..], told) && Tuned(View(), told)
    }

    constructor ()
      ensures Valid() && fresh(flows) && fresh(subs) && fresh(cache)
      ensures dirty && trail == [] && forall c :: 0 <= c < NCH ==> subs[c] == Sub("", "", Unset)
    {
      flows := new Flow[MAX_FLOWS](_ => IDLE_FLOW);
      subs := new Sub[NCH](_ => Sub("", "", Unset));
      cache := new Option<Resolved>[NCH](_ => None);
      floorUs, dirty, trail, told := 0, true, [], {};
    }

    /** subscriber_set: a channel index out of range is refused. */
    method Set(c: nat, channel: string, device: string) returns (ok: bool)
      requires Valid()
      modifies `dirty, subs
      ensures Valid() && ok == (c < NCH)
      ensures !ok ==> View() == old(View())
      ensures ok ==> dirty && View() == Apply(old(View()), Subscribe(c, channel, device))
      ensures ok && channel != "" ==> subs[c] == Sub(channel, device, Pending)
    {
      if c >= NCH { return false; }
      SubscribeKeeps(View(), c, channel, device);
      SubscribeTuned(View(), c, channel, device, told);
      ghost var was := View();
      subs[c] := if channel == "" then Sub("", "", Unset) else Sub(channel, device, Pending);
      assert View() == was.(subs := Subscribed(was.subs, c, channel, device));
      dirty := true;
      return true;
    }

    /** tear_down. */
    method StopFlow(i: nat)
      requires i < flows.Length
      modifies `trail, flows
      ensures flows[..] == TearDown(old(flows[..]), i) && trail == old(trail) + [flows[..]]
    {
      flows[i] := IDLE_FLOW;
      trail := trail + [flows[..]];
    }

    /** resolve_cached; a channel not subscribed only loses its entry. */
    method ResolveCached(c: nat, sub: Sub, answer: Option<Tx>) returns (r: Option<Tx>)
      requires Shape() && c < NCH && sub.channel != ""
      modifies cache
      ensures r == Found(old(cache[c]), sub, answer)
      ensures cache[..] == old(cache[..])[c := Cached(old(cache[c]), sub, answer)]
    {
      if cache[c].Some? && cache[c].value.channel == sub.channel && cache[c].value.device == sub.device {
        return Some(cache[c].value.tx);
      }
      cache[c] := None;
      if answer.None? { return None; }
      cache[c] := Some(Resolved(sub.channel, sub.device, answer.value));
      return answer;
    }

    /** forget_device: exactly the entries for this device go. */
    method ForgetDevice(dev: string)
      requires Shape()
      modifies cache
      ensures forall c :: 0 <= c < NCH ==>
        cache[c] == if old(cache[c]).Some? && old(cache[c]).value.device == dev then None else old(cache[c])
      ensures old(CacheOk()) ==> CacheOk()
    {
      var c := 0;
      while c < NCH
        invariant 0 <= c <= NCH
        invariant forall j :: 0 <= j < c ==>
          cache[j] == if old(cache[j]).Some? && old(cache[j]).value.device == dev then None else old(cache[j])
        invariant forall j :: c <= j < NCH ==> cache[j] == old(cache[j])
      {
        if cache[c].Some? && cache[c].value.device == dev { cache[c] := None; }
        c := c + 1;
      }
    }

    /** set_status for the channels of some slots. */
    method SetAll(slots: seq<Slot>, to: Status)
      requires forall k :: 0 <= k < |slots| ==> slots[k].ch < subs.Length
      modifies subs
      ensures subs[..] == SetStatus(old(subs[..]), slots, to)
    {
      var k := 0;
      while k < |slots|
        invariant 0 <= k <= |slots|
        invariant subs[..] == SetStatus(old(subs[..]), slots[..k], to)
      {
        ghost var was := subs[..];
        var c := slots[k].ch;
        subs[c] := subs[c].(status := to);
        assert subs[..] == SetStatus(old(subs[..]), slots[..k + 1], to) by { OneMore(old(subs[..]), slots, to, k); }
        k := k + 1;
      }
      assert slots[..k] == slots;
    }

    /** same_slots. */
    static method SameSlots(f: Flow, w: Want) returns (same: bool)
      ensures same <==> f.slots == w.slots
    {
      if |f.slots| != |w.slots| { return false; }
      var k := 0;
      while k < |w.slots|
        invariant 0 <= k <= |w.slots| == |f.slots|
        invariant f.slots[..k] == w.slots[..k]
      {
        if f.slots[k].id != w.slots[k].id { return false; }
        if f.slots[k].ch != w.slots[k].ch { return false; }
        k := k + 1;
      }
      return true;
    }

    /** The linear searches over the want table. */
    static method FindWant(wants: seq<Want>, d: string) returns (k: Option<nat>)
      ensures k == WantOf(wants, d)
    {
      var i := 0;
      while i < |wants|
        invariant 0 <= i <= |wants|
        invariant WantFrom(wants, d, i) == WantOf(wants, d)
      {
        if wants[i].device == d { return Some(i); }
        i := i + 1;
      }
      return None;
    }

    /** The first stage for one channel. */
    method Consider(c: nat, wants: seq<Want>, floor: nat, answer: Option<Tx>, rate: int) returns (next: seq<Want>, nextFloor: nat)
      requires Shape() && c < NCH
      modifies subs, cache
      ensures var sub := old(subs[c]); var found := Found(old(cache[c]), sub, answer); var joins := Joins(wants, sub, found, rate);
        && next == (if joins then Adding(wants, sub.device, Slot(found.value.id, c)) else wants)
        && nextFloor == (if joins then Max(floor, found.value.latencyUs) else floor)
        && subs[..] == old(subs[..])[c := if sub.channel != "" && !joins then sub.(status := Pending) else sub]
        && cache[..] == old(cache[..])[c := Cached(old(cache[c]), sub, answer)]
    {
      var sub := subs[c];
      next, nextFloor := wants, floor;
      if sub.channel == "" {
        cache[c] := None;
        assert subs[..] == old(subs[..])[c := sub];
        return;
      }
      var tx := ResolveCached(c, sub, answer);
      if tx.None? || tx.value.rate != rate {
        subs[c] := sub.(status := Pending);
        return;
      }
      var w := FindWant(wants, sub.device);
      if w.None? && |wants| >= MAX_FLOWS {
        subs[c] := sub.(status := Pending);
        return;
      }
      if w.None? {
        next := wants + [Want(sub.device, [])];
      }
      var at := if w.Some? then w.value else |wants|;
      if |next[at].slots| >= MAX_SLOTS {
        subs[c] := sub.(status := Pending);
        return;
      }
      var slot := Slot(tx.value.id, c);
      assert w.None? ==> next[at].slots + [slot] == [slot];
      next := next[at := next[at].(slots := next[at].slots + [slot])];
      assert w.None? ==> next == wants + [Want(sub.device, [slot])];
      assert subs[..] == old(subs[..])[c := sub];
      if tx.value.latencyUs > floor { nextFloor := tx.value.latencyUs; }
    }

    /** What the first n channels look like after the first stage. */
    ghost predicate Considered(was: seq<Sub>, had: seq<Option<Resolved>>, answers: seq<Option<Tx>>, rate: int, n: nat)
      requires Shape() && |was| == |had| == |answers| == NCH && n <= NCH
      reads subs, cache
    {
      var found := FoundAll(had, was, answers);
      forall j :: 0 <= j < NCH ==>
        && subs[..][j] == (if j < n && was[j].channel != "" && !Joins(Plan(was, found, rate, j), was[j], found[j], rate) then was[j].(status := Pending) else was[j])
        && cache[..][j] == if j < n then Cached(had[j], was[j], answers[j]) else had[j]
    }

    /** The first stage: the wants, the latency floor, and pending for every channel
        that has no place among them. */
    method BuildWants(answers: seq<Option<Tx>>, rate: int) returns (wants: seq<Want>, floor: nat)
      requires Shape() && |answers| == NCH
      modifies subs, cache
      ensures var was := old(subs[..]); var found := FoundAll(old(cache[..]), was, answers);
        wants == Plan(was, found, rate, NCH) && floor == Floor(was, found, rate, NCH)
        && Considered(was, old(cache[..]), answers, rate, NCH)
    {
      hide Joins, Adding, Found, Cached, Eligible, Admitted, Plan, Floor;
      ghost var was, had := subs[..], cache[..];
      ghost var found := FoundAll(had, was, answers);
      wants, floor := [], 0;
      NothingPlanned(was, found, rate);
      var c := 0;
      while c < NCH
        invariant 0 <= c <= NCH
        invariant wants == Plan(was, found, rate, c) && floor == Floor(was, found, rate, c)
        invariant Considered(was, had, answers, rate, c)
      {
        assert subs[..][c] == was[c] && cache[..][c] == had[c];
        PlanNext(was, found, rate, c);
        wants, floor := Consider(c, wants, floor, answers[c], rate);
        c := c + 1;
      }
    }

    /** The want not yet done for this device. */
    static method FindOpen(wants: seq<Want>, done: seq<bool>, d: string) returns (k: Option<nat>)
      requires |done| == |wants|
      ensures match k
        case Some(j) => j < |wants| && wants[j].device == d && !done[j]
        case None => forall j :: 0 <= j < |wants| && wants[j].device == d ==> done[j]
    {
      var i := 0;
      while i < |wants|
        invariant 0 <= i <= |wants|
        invariant forall j :: 0 <= j < i && wants[j].device == d ==> done[j]
      {
        if !done[i] && wants[i].device == d { return Some(i); }
        i := i + 1;
      }
      return None;
    }

    /** The second stage for one slot. */
    method ReconcileOne(i: nat, wants: seq<Want>, done: seq<bool>, retires: seq<Option<nat>>, ghost fs: seq<Flow>)
      returns (done': seq<bool>, retires': seq<Option<nat>>)
      requires Shape() && i < MAX_FLOWS && TableOk(fs) && PlanOk(wants, subs[..], NCH)
      requires flows[..] == Reconciled(fs, wants, i) && flows[i] == fs[i] && Marked(fs, wants, done, retires, i)
      modifies `trail, flows, subs
      ensures flows[..] == Reconciled(fs, wants, i + 1) && Marked(fs, wants, done', retires', i + 1)
      ensures PlanOk(wants, subs[..], NCH)
      ensures subs[..] == if Same(fs, wants, i) then SetStatus(old(subs[..]), fs[i].slots, Active) else old(subs[..])
      ensures trail == old(trail) + [flows[..]]
    {
      assert |done| == |retires| == |wants|;
      hide Marked, TableOk, Reconciled;
      assert (fs[i].device == "" <==> !fs[i].active) && Reconciled(fs, wants, i + 1) ==
        (if fs[i].device != "" && (WantOf(wants, fs[i].device).None? || !fs[i].active) then TearDown(flows[..], i) else flows[..]) by {
        OneMoreSlot(fs, wants, i);
      }
      done', retires' := done, retires;
      var f := flows[i];
      if f.device == "" {
        MarkedSkips(fs, wants, done, retires, i) by { BlankIsUnwanted(wants); }
        trail := trail + [flows[..]];
        BlankIsUnwanted(wants);
        return;
      }
      var w := FindOpen(wants, done, f.device);
      if WantOf(wants, f.device).Some? {
        MarkedMeets(fs, wants, done, retires, i, WantOf(wants, f.device).value);
      } else {
        MarkedSkips(fs, wants, done, retires, i);
      }
      if w.None? || !f.active {
        StopFlow(i);
        return;
      }
      SameWant(wants, WantOf(wants, f.device).value, w.value);
      var same := SameSlots(f, wants[w.value]);
      if same {
        done' := done[w.value := true];
        assert SlotsOk(wants[w.value], subs[..], NCH);
        ghost var was := subs[..];
        SetAll(f.slots, Active);
        PlanOkNames(wants, was, subs[..], NCH);
      } else {
        retires' := retires[w.value := Some(i)];
      }
      trail := trail + [flows[..]];
    }

    /** The second stage: the flows we have against what is wanted. */
    method ReconcileFlows(wants: seq<Want>, ghost was: State) returns (done: seq<bool>, retires: seq<Option<nat>>)
      requires Shape() && TableOk(was.flows) && PlanOk(wants, was.subs, NCH) && |was.subs| == NCH
      requires flows[..] == was.flows && trail == was.trail && subs[..] == Screened(was.subs, wants)
      modifies `trail, flows, subs
      ensures |done| == |retires| == |wants|
      ensures View() == Reconcile(was, wants) && Marked(flows[..], wants, done, retires, MAX_FLOWS)
    {
      ghost var fs := was.flows;
      NoneReconciled(fs, wants, subs[..]);
      PlanOkNames(wants, was.subs, subs[..], NCH);
      hide Marked, Reconciled, Confirmed, Stopping, Same, PlanOk, Screened, SetStatus, TableOk;
      done, retires := seq(|wants|, _ => false), seq(|wants|, _ => None);
      NothingMarked(fs, wants, done, retires);
      var i := 0;
      while i < MAX_FLOWS
        invariant 0 <= i <= MAX_FLOWS
        invariant flows[..] == Reconciled(fs, wants, i) && PlanOk(wants, subs[..], NCH)
        invariant subs[..] == Confirmed(Screened(was.subs, wants), fs, wants, i)
        invariant trail == was.trail + Stopping(fs, wants, i)
        invariant Marked(fs, wants, done, retires, i)
      {
        OneMoreSlot(fs, wants, i);
        OneReconciled(fs, wants, Screened(was.subs, wants), i);
        done, retires := ReconcileOne(i, wants, done, retires, fs);
        i := i + 1;
      }
      WantsOfPlan(wants, was.subs);
      MarkedKept(fs, wants, done, retires);
      MarkedLengths(flows[..], wants, done, retires, MAX_FLOWS);
    }

    static method FindFree(fs: seq<Flow>) returns (i: Option<nat>)
      ensures i == Free(fs)
    {
      var j := 0;
      while j < |fs|
        invariant 0 <= j <= |fs|
        invariant FirstFrom(fs, "", j) == Free(fs)
      {
        if fs[j].device == "" { return Some(j); }
        j := j + 1;
      }
      return None;
    }

    method Put(i: nat, f: Flow)
      requires i < flows.Length
      modifies `trail, flows
      ensures flows[..] == old(flows[..])[i := f] && trail == old(trail) + [flows[..]]
    {
      flows[i] := f;
      trail := trail + [flows[..]];
    }

    /** The cache holds nothing about this device. */
    ghost predicate Forgotten(dev: string)
      reads cache
    {
      forall c :: 0 <= c < cache.Length && cache[c].Some? ==> cache[c].value.device != dev
    }

    /** Ask the device; refused, stop the flow to be replaced and ask again. */
    method Ask(retires: Option<nat>, e: Answer) returns (rq: bool, replaced: Option<nat>)
      requires retires.Some? ==> retires.value < flows.Length
      modifies `trail, flows
      ensures var refused := !e.first && retires.Some?;
        && flows[..] == (if refused then TearDown(old(flows[..]), retires.value) else old(flows[..]))
        && trail == old(trail) + (if refused then [flows[..]] else [])
        && rq == (if refused then e.second else e.first) && replaced == if refused then None else retires
    {
      rq, replaced := e.first, retires;
      if !rq && replaced.Some? {
        StopFlow(replaced.value);
        replaced := None;
        rq := e.second;
      }
    }

    /** The flow is up: only now the one it replaces goes. */
    method Raise(i: nat, w: Want, replaced: Option<nat>)
      requires Shape() && i < flows.Length && (replaced.Some? ==> replaced.value < flows.Length)
      requires forall k :: 0 <= k < |w.slots| ==> w.slots[k].ch < NCH
      modifies `trail, flows, subs
      ensures subs[..] == SetStatus(old(subs[..]), w.slots, Active)
      ensures var up := old(flows[..])[i := Flow(true, w.device, w.slots)];
        flows[..] == (if replaced.Some? then TearDown(up, replaced.value) else up)
        && trail == old(trail) + [up] + if replaced.Some? then [TearDown(up, replaced.value)] else []
    {
      Put(i, Flow(true, w.device, w.slots));
      if replaced.Some? { StopFlow(replaced.value); }
      SetAll(w.slots, Active);
    }

    /** The device refused: what is known of it is forgotten, and the slot is free. */
    method Drop(i: nat, w: Want)
      requires Shape() && CacheOk() && i < flows.Length
      requires forall k :: 0 <= k < |w.slots| ==> w.slots[k].ch < NCH
      modifies `trail, flows, subs, cache
      ensures CacheOk() && Forgotten(w.device) && subs[..] == SetStatus(old(subs[..]), w.slots, Pending)
      ensures forall c :: 0 <= c < NCH ==> cache[c] == old(cache[c]) || cache[c] == None
      ensures flows[..] == old(flows[..])[i := Flow(false, "", w.slots)] && trail == old(trail) + [flows[..]]
    {
      ForgetDevice(w.device);
      Put(i, Flow(false, "", w.slots));
      SetAll(w.slots, Pending);
    }

    /** The third stage for one want: take a free slot, bind, request; on a refused
        replacement stop the old flow first and ask again; retire the old flow only
        once the new one is up. */
    method RequestOne(w: Want, done: bool, retires: Option<nat>, e: Answer)
      requires Shape() && (forall k :: 0 <= k < |w.slots| ==> w.slots[k].ch < NCH)
      requires Noted(flows[..], w, done, retires)
      requires CacheOk()
      modifies `trail, flows, subs, cache
      ensures View() == Bringing(old(View()), w, e) && CacheOk()
      ensures forall c :: 0 <= c < NCH ==> cache[c] == old(cache[c]) || cache[c] == None
      ensures var effect := Bring(old(flows[..]), w, e).effect;
        if effect == Down then Forgotten(w.device) else cache[..] == old(cache[..])
    {
      hide First, HasChannel, CacheOk, Forgotten, SetStatus;
      ghost var was := View();
      ghost var c := Bring(was.flows, w, e);
      if done { return; }
      var free := FindFree(flows[..]);
      if free.None? { return; }
      var i := free.value;
      Put(i, Flow(false, w.device, w.slots));
      if !e.bind {
        Put(i, Flow(false, "", w.slots));
        assert flows[..] == was.flows[i := Flow(false, "", w.slots)];
        assert trail == was.trail + c.steps;
        return;
      }
      var rq, replaced := Ask(retires, e);
      if rq { Raise(i, w, replaced); } else { Drop(i, w); }
      assert trail == was.trail + c.steps;
    }

    /** The third stage: whatever is still wanted, one want after another. */
    method RequestAll(wants: seq<Want>, done: seq<bool>, retires: seq<Option<nat>>, answers: seq<Answer>, ghost was: State)
      requires Shape() && CacheOk() && View() == was && Ready(was, wants) && |answers| == MAX_FLOWS
      requires |done| == |retires| == |wants|
      requires forall j :: 0 <= j < |wants| ==> Noted(flows[..], wants[j], done[j], retires[j])
      modifies `trail, flows, subs, cache
      ensures View() == BringAll(was, wants, answers, |wants|) && CacheOk()
      ensures forall c :: 0 <= c < NCH ==> cache[c] == old(cache[c]) || cache[c] == None
      ensures forall j :: 0 <= j < |wants| && answers[j].bind && Serves(flows[..], wants[j].device).None? ==> Forgotten(wants[j].device)
    {
      hide Bringing, Ready, Noted, CacheOk, WantDone, OthersSame, SameNames, Serves;
      assert |wants| <= MAX_FLOWS by { ReadyWants(was, wants); }
      var k := 0;
      while k < |wants|
        invariant 0 <= k <= |wants| <= MAX_FLOWS && CacheOk()
        invariant View() == BringAll(was, wants, answers, k)
        invariant forall c :: 0 <= c < NCH ==> cache[c] == old(cache[c]) || cache[c] == None
        invariant forall j :: k <= j < |wants| ==> Noted(flows[..], wants[j], done[j], retires[j])
        invariant forall j :: 0 <= j < k && answers[j].bind && Serves(flows[..], wants[j].device).None? ==> Forgotten(wants[j].device)
      {
        BringAllSettles(was, wants, answers, k);
        ghost var m := View();
        ReadySlots(m, wants, k);
        BringingOne(m, wants, k, answers[k]);
        if answers[k].bind && Serves(Bringing(m, wants[k], answers[k]).flows, wants[k].device).None? { UnservedIsDown(m, wants, k, answers[k]); }
        RequestOne(wants[k], done[k], retires[k], answers[k]);
        forall j | k + 1 <= j < |wants|
          ensures Noted(flows[..], wants[j], done[j], retires[j])
        {
          NotedInReady(m, wants, k, answers[k], j, done[j], retires[j]);
        }
        k := k + 1;
      }
    }

    /** What the first stage leaves: pending exactly where the plan has no place, and
        no cache entry for a device without a name. */
    lemma FirstStage(was: seq<Sub>, had: seq<Option<Resolved>>, lookups: seq<Option<Tx>>, rate: int)
      requires Shape() && |was| == |had| == |lookups| == NCH && Considered(was, had, lookups, rate, NCH)
      requires forall c :: 0 <= c < NCH ==> (had[c].Some? ==> had[c].value.device != "") && (was[c].device == "" ==> lookups[c].None?)
      ensures AnswersOk(was, FoundAll(had, was, lookups))
      ensures subs[..] == Screened(was, Plan(was, FoundAll(had, was, lookups), rate, NCH)) && CacheOk()
    {
      var found := FoundAll(had, was, lookups);
      hide Plan, Joins, Screened;
      forall c | 0 <= c < NCH
        ensures subs[c] == Screened(was, Plan(was, found, rate, NCH))[c] && (cache[c].Some? ==> cache[c].value.device != "")
      {
        ScreenedIs(was, found, rate, c);
        assert subs[..][c] == subs[c] && cache[..][c] == cache[c];
      }
    }

    lemma CacheConsidered(was: seq<Sub>, had: seq<Option<Resolved>>, lookups: seq<Option<Tx>>, rate: int)
      requires Shape() && |was| == |had| == |lookups| == NCH && Considered(was, had, lookups, rate, NCH)
      ensures forall c :: 0 <= c < NCH ==> cache[c] == Cached(had[c], was[c], lookups[c])
    {
      hide Cached, Joins, Plan;
      forall c | 0 <= c < NCH ensures cache[c] == Cached(had[c], was[c], lookups[c]) { assert cache[..][c] == cache[c]; }
    }

    /** A device without a name cannot be looked up. */
    ghost predicate LookupsOk(lookups: seq<Option<Tx>>)
      reads subs
    {
      Shape() && |lookups| == NCH && forall c :: 0 <= c < NCH && subs[..][c].device == "" ==> lookups[c].None?
    }

    /** The three stages. */
    method Stages(lookups: seq<Option<Tx>>, rate: int, answers: seq<Answer>, ghost was: State)
      requires Shape() && CacheOk() && LookupsOk(lookups) && |answers| == MAX_FLOWS
      requires View() == was && TableOk(was.flows)
      modifies `floorUs, `trail, flows, subs, cache
      ensures var found := FoundAll(old(cache[..]), was.subs, lookups);
        && AnswersOk(was.subs, found) && CacheOk()
        && var ws := Plan(was.subs, found, rate, NCH);
           |ws| <= |answers| && View() == Rebuilt(was, ws, answers) && floorUs == Floor(was.subs, found, rate, NCH)
           && (forall c :: 0 <= c < NCH ==> cache[c] == None || cache[c] == Cached(old(cache[c]), was.subs[c], lookups[c]))
           && forall j :: 0 <= j < |ws| && answers[j].bind && Serves(flows[..], ws[j].device).None? ==> Forgotten(ws[j].device)
    {
      ghost var had := cache[..];
      ghost var found := FoundAll(had, was.subs, lookups);
      assert forall c :: 0 <= c < NCH ==> had[c] == cache[c];
      hide Considered, CacheOk, Plan, Floor, Screened, PlanOk, Ready, TableOk, Marked, Noted, BringAll, Reconcile, FoundAll;
      assert forall c :: 0 <= c < NCH ==> (had[c].Some? ==> had[c].value.device != "") by { CacheNames(); }
      var wants, floor := BuildWants(lookups, rate);
      floorUs := floor;
      FirstStage(was.subs, had, lookups, rate);
      CacheConsidered(was.subs, had, lookups, rate);
      PlanIsOk(was.subs, found, rate, NCH);
      var done, retires := ReconcileFlows(wants, was);
      ReconcileReady(was, wants);
      ReadyWants(Reconcile(was, wants), wants);
      forall j | 0 <= j < |wants|
        ensures j < |done| && j < |retires| && Noted(flows[..], wants[j], done[j], retires[j])
      {
        MarkedIsNoted(flows[..], wants, done, retires, j);
      }
      RequestAll(wants, done, retires, answers, Reconcile(was, wants));
    }

    lemma CacheNames()
      requires Shape() && CacheOk()
      ensures forall c :: 0 <= c < NCH ==> (cache[..][c].Some? ==> cache[..][c].value.device != "")
    {}

    /** rebuild, with the lookups, binds and requests answered by the environment: one
        step of the specification, on the cached resolutions where there are any; a
        transmitter that refused will be looked up again. */
    method Rebuild(lookups: seq<Option<Tx>>, rate: int, answers: seq<Answer>)
      requires Valid() && LookupsOk(lookups) && |answers| == MAX_FLOWS
      modifies `floorUs, `trail, `told, flows, subs, cache
      ensures told == old(told) + Answered(old(subs[..]), lookups)
      ensures WantsKnown(Plan(old(subs[..]), FoundAll(old(cache[..]), old(subs[..]), lookups), rate, NCH), old(subs[..]), told, rate)
      ensures var found := FoundAll(old(cache[..]), old(subs[..]), lookups); var e := Event.Rebuild(found, rate, answers);
        && Enabled(old(View()), e) && View() == Apply(old(View()), e) && Valid()
        && floorUs == Floor(old(subs[..]), found, rate, NCH)
        && var ws := Plan(old(subs[..]), found, rate, NCH);
           |ws| <= |answers| && forall j :: 0 <= j < |ws| && answers[j].bind && Serves(flows[..], ws[j].device).None? ==> Forgotten(ws[j].device)
    {
      ghost var before := View();
      ghost var e := Event.Rebuild(FoundAll(cache[..], subs[..], lookups), rate, answers);
      assert TableOk(before.flows) && |before.subs| == NCH;
      hide Inv, CacheOk, TableOk, Plan, Floor, Rebuilt, FoundAll, LookupsOk, AnswersOk, Answered, AllTold, Tuned, Cached, WantsKnown;
      ghost var had := cache[..];
      trail := [];
      Stages(lookups, rate, answers, before.(trail := []));
      StepKeeps(before, e);
      RebuildTunes(before, had, lookups, rate, answers, told);
      StillTold(had, before.subs, lookups, told);
      told := told + Answered(before.subs, lookups);
    }

    lemma StillTold(had: seq<Option<Resolved>>, was: seq<Sub>, lookups: seq<Option<Tx>>, known: set<Resolved>)
      requires Shape() && |had| == |was| == |lookups| == NCH && AllTold(had, known)
      requires forall c :: 0 <= c < NCH ==> cache[c] == None || cache[c] == Cached(had[c], was[c], lookups[c])
      ensures AllTold(cache[..], known + Answered(was, lookups))
    {
      hide Cached, Answered;
      FoundIsTold(had, was, lookups, known);
    }

    /** any_pending: some channel is subscribed and not active. */
    method AnyPending() returns (pending: bool)
      requires Shape()
      ensures pending <==> exists c :: 0 <= c < NCH && subs[c].channel != "" && subs[c].status != Active
    {
      pending := false;
      var c := 0;
      while c < NCH
        invariant 0 <= c <= NCH
        invariant pending <==> exists j :: 0 <= j < c && subs[j].channel != "" && subs[j].status != Active
      {
        if subs[c].channel != "" && subs[c].status != Active { pending := true; }
        c := c + 1;
      }
    }

    lemma FewerTold(had: seq<Option<Resolved>>)
      requires |had| == cache.Length && AllTold(had, told)
      requires forall c :: 0 <= c < cache.Length ==> cache[c] == had[c] || cache[c] == None
      ensures AllTold(cache[..], told)
    {}

    /** Whatever the network is, if it has always answered as `dir` says: the cache agrees
        with it, and an active channel whose device has a flow plays from it the transmit
        channel that its names stand for. */
    lemma PlaysWhatItSays(dir: (string, string) -> Option<Tx>)
      requires Valid() && forall r :: r in told ==> dir(r.channel, r.device) == Some(r.tx)
      ensures forall c :: 0 <= c < NCH && cache[c].Some? ==> dir(cache[c].value.channel, cache[c].value.device) == Some(cache[c].value.tx)
      ensures forall c :: 0 <= c < NCH && subs[c].status == Active && Serves(flows[..], subs[c].device).Some? ==>
        dir(subs[c].channel, subs[c].device).Some?
        && Slot(dir(subs[c].channel, subs[c].device).value.id, c) in Serves(flows[..], subs[c].device).value
    {
      hide Inv, CacheOk, Serves;
      assert forall c :: 0 <= c < NCH ==> cache[..][c] == cache[c] && subs[..][c] == subs[c];
      forall c | 0 <= c < NCH && subs[c].status == Active && Serves(flows[..], subs[c].device).Some?
        ensures dir(subs[c].channel, subs[c].device).Some?
        ensures Slot(dir(subs[c].channel, subs[c].device).value.id, c) in Serves(flows[..], subs[c].device).value
      {
        var slots := Serves(flows[..], subs[c].device).value;
        assert InTune(slots, c, View().subs[c], told);
        var k :| 0 <= k < |slots| && slots[k].ch == c && Known(told, subs[c], slots[k].id);
        assert slots[k] == Slot(slots[k].id, c);
      }
    }

    /** The liveness check of one flow: one whose packets have stopped by its deadline is
        forgotten, stopped, and due for a rebuild. */
    method CheckFlow(i: nat, due: bool, moved: bool) returns (dead: bool)
      requires Valid() && i < MAX_FLOWS
      modifies `dirty, `trail, flows, cache
      ensures Valid() && dead == (old(flows[i]).active && due && !moved)
      ensures !dead ==> View() == old(View()) && dirty == old(dirty) && cache[..] == old(cache[..])
      ensures dead ==> Enabled(old(View()), Stall(i)) && View() == Apply(old(View()), Stall(i)) && dirty
      ensures dead ==> forall c :: 0 <= c < NCH ==>
        cache[c] == if old(cache[c]).Some? && old(cache[c]).value.device == old(flows[i]).device then None else old(cache[c])
    {
      var f := flows[i];
      if !f.active || !due || moved { return false; }
      StallKeeps(View(), i);
      StallTuned(View(), i, told);
      ghost var had := cache[..];
      ForgetDevice(f.device);
      StopFlow(i);
      dirty := true;
      FewerTold(had);
      return true;
    }

    /** The rebuild of one pass: when something changed, or when it is time to retry and
        a channel is pending. */
    method MaybeRebuild(retry: bool, lookups: seq<Option<Tx>>, rate: int, answers: seq<Answer>) returns (ghost es: seq<Event>)
      requires Valid() && LookupsOk(lookups) && |answers| == MAX_FLOWS
      modifies `floorUs, `dirty, `trail, `told, flows, subs, cache
      ensures Valid() && !dirty && Legal(old(View()), es) && View() == Run(old(View()), es)
      ensures es == if old(dirty) || (retry && exists c :: 0 <= c < NCH && old(subs[c].channel != "" && subs[c].status != Active))
        then [Event.Rebuild(FoundAll(old(cache[..]), old(subs[..]), lookups), rate, answers)] else []
    {
      ghost var was := View();
      ghost var e := Event.Rebuild(FoundAll(cache[..], subs[..], lookups), rate, answers);
      assert |was.subs| == NCH;
      RunNothing(was);
      hide Apply, Inv, CacheOk, LookupsOk, Enabled, Run, Legal, FoundAll, Floor, Plan, Serves, Forgotten;
      var due := dirty;
      if !due && retry { due := AnyPending(); }
      dirty := false;
      es := [];
      if due {
        Rebuild(lookups, rate, answers);
        RunExtends(was, es, e);
        es := es + [e];
      }
    }

    /** One pass of the subscriber loop: at most one rebuild, then the liveness of each flow. Every
        pass is a stretch of a legal run, and leaves a rebuild due if a flow died. */
    method Pass(retry: bool, lookups: seq<Option<Tx>>, rate: int, answers: seq<Answer>, due: seq<bool>, moved: seq<bool>) returns (ghost es: seq<Event>)
      requires Valid() && LookupsOk(lookups) && |answers| == |due| == |moved| == MAX_FLOWS
      modifies this, flows, subs, cache
      ensures Valid() && Legal(old(View()), es) && View() == Run(old(View()), es)
      ensures dirty <==> exists k :: 0 <= k < |es| && es[k].Stall?
    {
      ghost var was := View();
      assert Inv(was);
      es := MaybeRebuild(retry, lookups, rate, answers);
      assert forall k :: 0 <= k < |es| ==> !es[k].Stall?;
      hide Inv, CacheOk, Apply, LookupsOk, Run, Legal;
      var i := 0;
      while i < MAX_FLOWS
        invariant 0 <= i <= MAX_FLOWS
        invariant Valid() && Legal(was, es) && View() == Run(was, es)
        invariant dirty <==> exists k :: 0 <= k < |es| && es[k].Stall?
      {
        var dead := CheckFlow(i, due[i], moved[i]);
        if dead {
          RunExtends(was, es, Stall(i));
          ghost var n := |es|;
          es := es + [Stall(i)];
          assert es[n].Stall?;
        }
        i := i + 1;
      }
    }
  }
}
