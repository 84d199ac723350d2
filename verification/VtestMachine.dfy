/** The vtest renderer's sync, timeline and wait machine, as a function of its inputs. */
module VtestMachine {
  import opened Bags
  import opened SyncPool
  import opened SyncWaits

  const MAX_TIMELINE_COUNT := 64
  const INT32_MAX := 0x7fff_ffff
  const UINT64_MAX := 0xffff_ffff_ffff_ffff
  const NS_PER_MS := 1_000_000

  datatype Submit = Submit(serial: nat, entries: seq<Entry>)

  datatype Context = Context(id: int, table: map<int, Ref>, timelines: seq<seq<Submit>>, waits: seq<Wait>)

  datatype State = State(
    pool: Pool, active: seq<Context>, freeContexts: seq<Context>, nextContextId: int,
    nextEvent: nat, nextSubmit: nat, log: seq<Event>)

  const INITIAL := State(EMPTY_POOL, [], [], 1, 0, 0, [])

  datatype Ret = Ok | EINVAL | ENOMEM | ENODEV | EEXIST | EIO

  /** A client-side sync id with a value. */
  datatype Request = Request(id: int, value: nat)

  /** The deadline of a wait: a timeout beyond INT32_MAX milliseconds never passes. */
  function Deadline(now: nat, timeout: nat): nat {
    if timeout > INT32_MAX then UINT64_MAX else now + NS_PER_MS * timeout
  }

  // --- signalling ----------------------------------------------------------------------------

  function SweepContexts(p: Pool, cs: seq<Context>, r: Ref, value: nat, now: nat): (o: Swept<seq<Context>>)
    ensures |o.kept| == |cs|
    ensures forall i :: 0 <= i < |cs| ==> o.kept[i] == cs[i].(waits := o.kept[i].waits)
    decreases |cs|
  {
    if cs == [] then Swept(p, [], [])
    else
      var one := Sweep(p, cs[0].waits, r, value, now);
      var rest := SweepContexts(one.pool, cs[1..], r, value, now);
      Swept(rest.pool, [cs[0].(waits := one.kept)] + rest.kept, one.events + rest.events)
  }

  /** Sets the value of a sync; a rise visits every listed wait of every active context. */
  function SignalSync(s: State, r: Ref, value: nat, now: nat): (t: State)
    ensures |t.active| == |s.active|
    ensures forall i :: 0 <= i < |s.active| ==> t.active[i] == s.active[i].(waits := t.active[i].waits)
  {
    if r !in s.pool.syncs then s
    else if s.pool.syncs[r].value >= value then
      s.(pool := SetValue(s.pool, r, value), log := s.log + [Signalled(Signal(r, value, now, false))])
    else
      var o := SweepContexts(SetValue(s.pool, r, value), s.active, r, value, now);
      s.(pool := o.pool, active := o.kept,
         log := s.log + [Signalled(Signal(r, value, now, true))] + o.events)
  }

  /** Signals the entries of a submit in order, dropping the submit's references on the way. */
  function SignalEntries(s: State, es: seq<Entry>, now: nat): (t: State)
    ensures |t.active| == |s.active|
    ensures forall i :: 0 <= i < |s.active| ==> t.active[i] == s.active[i].(waits := t.active[i].waits)
    decreases |es|
  {
    if es == [] then s
    else
      var t := SignalSync(s, es[0].sync, es[0].value, now);
      SignalEntries(t.(pool := Unref(t.pool, es[0].sync)), es[1..], now)
  }

  function SetTimeline(c: Context, ring: nat, q: seq<Submit>): Context
    requires ring < |c.timelines|
  {
    c.(timelines := c.timelines[ring := q])
  }

  /** Completes queued submits from the head of a timeline up to and including the one named. */
  function SignalTimeline(s: State, c: nat, ring: nat, serial: nat, now: nat): State
    requires c < |s.active| && ring < |s.active[c].timelines|
    decreases |s.active[c].timelines[ring]|
  {
    var q := s.active[c].timelines[ring];
    if q == [] then s
    else
      var popped := s.(active := s.active[c := SetTimeline(s.active[c], ring, q[1..])]);
      var t := SignalEntries(popped, q[0].entries, now);
      if q[0].serial == serial then t else SignalTimeline(t, c, ring, serial, now)
  }

  // --- requests ------------------------------------------------------------------------------

  function Refs(es: seq<Entry>): seq<Ref> {
    if es == [] then [] else [es[0].sync] + Refs(es[1..])
  }

  function NewSync(s: State, c: nat, value: nat, mem: Option<Ref>, replied: bool): (State, Ret)
    requires c < |s.active|
    requires forall r :: r in s.pool.free ==> r in s.pool.syncs
  {
    var (p, r) := New(s.pool, value, mem);
    if r.None? then (s, ENOMEM)
    else if !replied then (s.(pool := Unref(p, r.value)), EIO)
    else
      var ctx := s.active[c];
      (s.(pool := p, active := s.active[c := ctx.(table := ctx.table[p.syncs[r.value].id := r.value])]), Ok)
  }

  function DropSync(s: State, c: nat, id: int): State
    requires c < |s.active|
  {
    var ctx := s.active[c];
    if id !in ctx.table then s
    else s.(pool := Unref(s.pool, ctx.table[id]), active := s.active[c := ctx.(table := ctx.table - {id})])
  }

  function WriteSync(s: State, c: nat, id: int, value: nat, now: nat): (State, Ret)
    requires c < |s.active|
  {
    var table := s.active[c].table;
    if id !in table then (s, EEXIST) else (SignalSync(s, table[id], value, now), Ok)
  }

  /** The requested entries up to the first unknown sync id. */
  function Resolve(table: map<int, Ref>, reqs: seq<Request>): seq<Entry> {
    if reqs == [] || reqs[0].id !in table then []
    else [Entry(table[reqs[0].id], reqs[0].value)] + Resolve(table, reqs[1..])
  }

  function Current(p: Pool, es: seq<Entry>): (vs: seq<nat>)
    ensures |vs| == |es|
  {
    seq(|es|, i requires 0 <= i < |es| => if es[i].sync in p.syncs then p.syncs[es[i].sync].value else 0)
  }

  function AddRefs(p: Pool, refs: seq<Ref>): Pool
    decreases |refs|
  {
    if refs == [] then p else AddRefs(AddRef(p, refs[0]), refs[1..])
  }

  function FreshSlots(es: seq<Entry>): seq<Slot> {
    if es == [] then [] else [Slot(Some(es[0].sync), es[0].value)] + FreshSlots(es[1..])
  }

  /** A wait request. `eventOk` and `sent` tell whether the eventfd could be created and passed on. */
  function WaitSync(s: State, c: nat, any: bool, timeout: nat, reqs: seq<Request>, mem: bool, eventOk: bool,
                    sent: bool, now: nat): (State, Ret)
    requires c < |s.active|
  {
    if !mem then (s, ENOMEM)
    else if !eventOk then (s, ENODEV)
    else
      var ctx, fd := s.active[c], s.nextEvent;
      var entries := Resolve(ctx.table, reqs);
      var unmet := Unmet(entries, Current(s.pool, entries));
      var p := AddRefs(s.pool, Refs(unmet));
      var w := Wait(fd, any, Deadline(now, timeout), FreshSlots(unmet), 0);
      if |entries| < |reqs| then
        (s.(pool := Release(p, w), nextEvent := fd + 1, log := s.log + [Closed(fd)]), EEXIST)
      else
        var ready := unmet == [] || (any && |unmet| < |reqs|);
        var asked := s.log
          + [Asked(fd, ctx.id, any, w.validBefore, sent && timeout != 0, entries, Current(s.pool, entries))]
          + (if ready then [Ready(fd)] else []);
        var ret := if sent then Ok else EIO;
        if !sent || ready || timeout == 0 then
          (s.(pool := Release(p, w), nextEvent := fd + 1, log := asked + [Closed(fd)]), ret)
        else
          (s.(pool := p, nextEvent := fd + 1, log := asked,
              active := s.active[c := ctx.(waits := ctx.waits + [w])]), ret)
  }

  /** Signals the requested syncs of a batch without a ring, up to the first unknown id. */
  function SignalRequests(s: State, c: nat, reqs: seq<Request>, now: nat): (o: (State, Ret))
    requires c < |s.active|
    decreases |reqs|
  {
    if reqs == [] then (s, Ok)
    else if reqs[0].id !in s.active[c].table then (s, EEXIST)
    else SignalRequests(SignalSync(s, s.active[c].table[reqs[0].id], reqs[0].value, now), c, reqs[1..], now)
  }

  /** One batch of a submission, after its commands were handed to the renderer. */
  function SubmitBatch(s: State, c: nat, cmdOk: bool, ring: Option<nat>, reqs: seq<Request>, mem: bool,
                       fenceOk: bool, now: nat): (State, Ret)
    requires c < |s.active|
    requires ring.Some? ==> ring.value < |s.active[c].timelines|
  {
    if !cmdOk then (s, EINVAL)
    else if reqs == [] then (s, Ok)
    else if ring.None? then SignalRequests(s, c, reqs, now)
    else if !mem then (s, ENOMEM)
    else
      var ctx := s.active[c];
      var entries := Resolve(ctx.table, reqs);
      var p := AddRefs(s.pool, Refs(entries));
      if |entries| < |reqs| then (s.(pool := UnrefAll(p, Refs(entries))), EEXIST)
      else if !fenceOk then (s.(pool := UnrefAll(p, Refs(entries))), EINVAL)
      else
        var q := ctx.timelines[ring.value] + [Submit(s.nextSubmit, entries)];
        (s.(pool := p, nextSubmit := s.nextSubmit + 1,
            active := s.active[c := SetTimeline(ctx, ring.value, q)]), Ok)
  }

  // --- contexts ------------------------------------------------------------------------------

  function EmptyTimelines(): seq<seq<Submit>> {
    seq(MAX_TIMELINE_COUNT, i => [])
  }

  /** `ok` fails when the name cannot be read; the context then goes straight to the free list. */
  function CreateContext(s: State, lengthOk: bool, mem: bool, ok: bool): (State, Ret) {
    if !lengthOk then (s, EINVAL)
    else if s.freeContexts == [] && !mem then (s, ENOMEM)
    else
      var isNew := s.freeContexts == [];
      var ctx := if isNew then Context(s.nextContextId, map[], EmptyTimelines(), []) else s.freeContexts[0];
      var rest := if isNew then [] else s.freeContexts[1..];
      var t := s.(freeContexts := rest, nextContextId := if isNew then s.nextContextId + 1 else s.nextContextId);
      if ok then (t.(active := t.active + [ctx]), Ok) else (t.(freeContexts := [ctx] + rest), EINVAL)
  }

  function QueueRefs(q: seq<Submit>): seq<Ref> {
    if q == [] then [] else Refs(q[0].entries) + QueueRefs(q[1..])
  }

  function TimelineRefs(ts: seq<seq<Submit>>): seq<Ref> {
    if ts == [] then [] else QueueRefs(ts[0]) + TimelineRefs(ts[1..])
  }

  function WaitRefs(ws: seq<Wait>): seq<Ref> {
    if ws == [] then [] else LiveRefs(ws[0].slots) + WaitRefs(ws[1..])
  }

  function Closings(ws: seq<Wait>): seq<Event> {
    if ws == [] then [] else [Closed(ws[0].fd)] + Closings(ws[1..])
  }

  /** Releases everything a context holds. `order` is the order in which its table is emptied. */
  function DestroyContext(s: State, c: nat, order: seq<Ref>): State
    requires c < |s.active|
  {
    var ctx := s.active[c];
    s.(active := s.active[..c] + s.active[c + 1..],
       pool := UnrefAll(s.pool, TimelineRefs(ctx.timelines) + WaitRefs(ctx.waits) + order),
       log := s.log + [Destroyed(ctx.id)] + Closings(ctx.waits),
       freeContexts := [Context(ctx.id, map[], EmptyTimelines(), [])] + s.freeContexts)
  }

  function DestroyAll(s: State, orders: seq<seq<Ref>>): State
    requires |orders| == |s.active|
    decreases |s.active|
  {
    if s.active == [] then s else DestroyAll(DestroyContext(s, 0, orders[0]), orders[1..])
  }

  function FreeSyncs(p: Pool): Pool {
    Pool(p.syncs - (set r | r in p.free), [], 1)
  }

  function CleanupRenderer(s: State, orders: seq<seq<Ref>>): State
    requires |orders| == |s.active|
  {
    var t := if s.nextContextId > 1 then DestroyAll(s, orders).(freeContexts := [], nextContextId := 1) else s;
    if t.pool.nextId > 1 then t.(pool := FreeSyncs(t.pool)) else t
  }
}
