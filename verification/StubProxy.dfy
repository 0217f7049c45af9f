/** The request protocol between the user-level device proxy and the kernel stub, as a step
    relation over all interleavings of submitters, device and proxy thread. */
module StubProxy {
  import opened Common

  /** A request: a write carries `data`; a read is answered with `data` by the device. */
  datatype Req = Req(id: nat, isRead: bool, data: int)

  /** How far the submitter of a unit's request has got before it leaves the request to the device. */
  datatype Submitter = Away | Admitted(r: Req) | Filled(r: Req) | Entered(r: Req)

  /** One parallel unit: the proxy's slot and completion flag, the kernel's busy state and
      request pointers, the device, and the shared data page. */
  datatype Unit = Unit(
    llm: Option<Req>, ps: bool,
    sub: Submitter,
    busy: nat, kr: Option<Req>, ur: Option<Req>,
    dev: Option<Req>,
    page: int)

  /** Where the proxy thread is: in poll() looking at unit i, about to set the flag of unit i,
      scanning flags, holding a request it took, having copied its data, having ended it. */
  datatype Pc =
    | Poll(i: nat, found: bool)
    | Mark(i: nat, found: bool)
    | Scan(i: nat)
    | Taken(i: nat, r: Req)
    | Copied(i: nat, r: Req)
    | Ended(i: nat)

  datatype State = State(
    units: seq<Unit>, pc: Pc,
    admitted: set<Req>, ended: seq<Req>,
    sent: map<Req, int>,   // what the device was given for each write
    got: map<Req, int>,    // what each read returned
    fault: bool)           // some "impossible" branch was taken

  datatype Step = Admit(u: nat, r: Req) | Fill(u: nat) | Enter(u: nat) | Launch(u: nat) | Complete(u: nat) | Thread

  function Idle(page: int): Unit {
    Unit(None, false, Away, 0, None, None, None, page)
  }

  predicate Init(s: State) {
    && |s.units| > 0
    && (forall u | 0 <= u < |s.units| :: s.units[u] == Idle(s.units[u].page))
    && s.pc == Poll(0, false) && s.admitted == {} && s.ended == [] && s.sent == map[] && s.got == map[] && !s.fault
  }

  predicate Enabled(s: State, step: Step) {
    match step
    case Admit(u, r) => u < |s.units| && r !in s.admitted
    case Fill(u) => u < |s.units| && s.units[u].sub.Admitted?
    case Enter(u) => u < |s.units| && s.units[u].sub.Filled?
    case Launch(u) => u < |s.units| && s.units[u].sub.Entered?
    case Complete(u) => u < |s.units| && s.units[u].dev.Some?
    case Thread => PcInRange(s)
  }

  predicate PcInRange(s: State) {
    match s.pc
    case Poll(i, _) => i <= |s.units|
    case Mark(i, _) => i < |s.units|
    case Scan(i) => i <= |s.units|
    case Taken(i, _) => i < |s.units|
    case Copied(i, _) => i < |s.units|
    case Ended(i) => i < |s.units|
  }

  function Put(s: State, u: nat, x: Unit): State
    requires u < |s.units|
  {
    s.(units := s.units[u := x])
  }

  /** One step. */
  function Next(s: State, step: Step): State
    requires Enabled(s, step)
  {
    match step
    case Admit(u, r) =>
      var x := s.units[u];
      if x.llm.Some? then s  // refused: a request to the same unit is outstanding
      else Put(s, u, x.(llm := Some(r), sub := Admitted(r))).(admitted := s.admitted + {r})
    case Fill(u) =>
      var x := s.units[u];
      var r := x.sub.r;
      Put(s, u, x.(sub := Filled(r), page := if r.isRead then x.page else r.data))
    case Enter(u) =>
      var x := s.units[u];
      var r := x.sub.r;
      if x.busy != 0 || x.ur.Some? || x.kr.Some? then Put(s, u, x.(sub := Away)).(fault := true)  // -EBUSY
      else Put(s, u, x.(sub := Entered(r), busy := 1, kr := Some(r), ur := Some(r)))
    case Launch(u) =>
      var x := s.units[u];
      var r := x.sub.r;
      Put(s, u, x.(sub := Away, dev := Some(r))).(sent := if r.isRead then s.sent else s.sent[r := x.page])
    case Complete(u) =>
      var x := s.units[u];
      var r := x.dev.value;
      var y := x.(dev := None, page := if r.isRead then r.data else x.page);
      if x.busy != 1 then Put(s, u, y).(fault := true) else Put(s, u, y.(busy := 2))
    case Thread => ThreadStep(s)
  }

  /** What the thread does to the unit it looks at. */
  function UnitAfter(pc: Pc, x: Unit): Unit {
    match pc
    case Poll(_, _) => if x.busy != 2 then x else x.(kr := None, ur := None, busy := 0)
    case Mark(_, _) => x.(ps := true)
    case Scan(_) => if x.ps && x.llm.Some? then x.(llm := None) else x
    case Ended(_) => x.(ps := false)
    case _ => x
  }

  /** Where it goes next. */
  function PcAfter(pc: Pc, x: Unit): Pc {
    match pc
    case Poll(i, found) => if x.busy == 2 && x.ur.Some? && x.kr.Some? then Mark(i, found) else Poll(i + 1, found)
    case Mark(i, _) => Poll(i + 1, true)
    case Scan(i) => if x.ps && x.llm.Some? then Taken(i, x.llm.value) else Scan(i + 1)
    case Taken(i, r) => Copied(i, r)
    case Copied(i, _) => Ended(i)
    case Ended(i) => Scan(i + 1)
  }

  /** Whether it takes a branch marked impossible. */
  predicate FaultAt(pc: Pc, x: Unit) {
    || (pc.Poll? && x.busy == 2 && !(x.ur.Some? && x.kr.Some?))
    || (pc.Scan? && x.ps && x.llm.None?)
  }

  /** Where it goes from the end of a sweep over the units. */
  function PcAtEnd(pc: Pc): Pc {
    if pc.Poll? && pc.found then Scan(0) else Poll(0, false)
  }

  /** One step of the proxy thread; its poll() runs the kernel's completion scan. */
  function ThreadStep(s: State): State
    requires PcInRange(s)
  {
    if s.pc.i == |s.units| then s.(pc := PcAtEnd(s.pc))
    else
      var x := s.units[s.pc.i];
      s.(units := s.units[s.pc.i := UnitAfter(s.pc, x)],
         pc := PcAfter(s.pc, x),
         ended := if s.pc.Copied? then s.ended + [s.pc.r] else s.ended,
         got := if s.pc.Taken? && s.pc.r.isRead then s.got[s.pc.r := x.page] else s.got,
         fault := s.fault || FaultAt(s.pc, x))
  }

  // ---- the invariant ----------------------------------------------------------------------

  /** The thread is between taking a request of unit u and clearing u's flag. */
  predicate Serving(pc: Pc, u: nat) {
    (pc.Taken? || pc.Copied? || pc.Ended?) && pc.i == u
  }

  /** The request the thread holds, taken but not ended. */
  function Held(pc: Pc): Option<Req> {
    if pc.Taken? || pc.Copied? then Some(pc.r) else None
  }

  /** The thread has still to look at unit u's flag in this round of poll and scan. */
  predicate ToScan(pc: Pc, u: nat) {
    match pc
    case Poll(i, found) => u < i && found
    case Mark(i, _) => u < i
    case Scan(i) => i <= u
    case Taken(i, _) => i < u
    case Copied(i, _) => i < u
    case Ended(i) => i < u
  }

  /** The possible situations of a unit, from no request to one waiting to be taken. */
  predicate UnitOk(x: Unit, pc: Pc, u: nat) {
    // the flag is up only for a completion still to be scanned or being served
    && (x.ps ==> Serving(pc, u) || (x.llm.Some? && ToScan(pc, u)))
    && (Serving(pc, u) ==> x.ps)
    && match x.llm
       case None =>
         x.sub.Away? && x.busy == 0 && x.kr.None? && x.ur.None? && x.dev.None? && !(pc.Mark? && pc.i == u)
       case Some(r) =>
         var marking := pc.Mark? && pc.i == u;
         var waiting := x.ps && !Serving(pc, u);
         if x.sub.Admitted? || x.sub.Filled? then
           && x.sub.r == r && x.busy == 0 && x.kr.None? && x.ur.None? && x.dev.None? && !marking && !waiting
           && (x.sub.Filled? && !r.isRead ==> x.page == r.data)
         else if x.sub.Entered? then
           && x.sub.r == r && x.busy == 1 && x.kr == Some(r) == x.ur && x.dev.None? && !marking && !waiting
           && (!r.isRead ==> x.page == r.data)
         else if x.busy == 1 then
           x.kr == Some(r) == x.ur && x.dev == Some(r) && !marking && !waiting
         else if x.busy == 2 then
           x.kr == Some(r) == x.ur && x.dev.None? && !marking && !waiting
         else
           x.busy == 0 && x.kr.None? && x.ur.None? && x.dev.None? && (marking <==> !waiting)
  }

  ghost predicate UnitsOk(s: State) {
    forall u | 0 <= u < |s.units| :: UnitOk(s.units[u], s.pc, u)
  }

  /** Every admitted request is in exactly one place: a unit's slot, the thread's hand, or ended. */
  ghost predicate Accounted(s: State) {
    && NoDup(s.ended)
    && (forall u, v | 0 <= u < v < |s.units| && s.units[u].llm.Some? && s.units[v].llm.Some? ::
          s.units[u].llm.value != s.units[v].llm.value)
    && (forall u | 0 <= u < |s.units| && s.units[u].llm.Some? ::
          s.units[u].llm.value !in s.ended && Held(s.pc) != s.units[u].llm)
    && (Held(s.pc).Some? ==> Held(s.pc).value !in s.ended)
    && forall r :: r in s.admitted <==>
         r in s.ended || Held(s.pc) == Some(r) || InSlot(s, r)
  }

  /** Some unit's slot holds r. */
  ghost predicate InSlot(s: State, r: Req) {
    exists u :: 0 <= u < |s.units| && s.units[u].llm == Some(r)
  }

  /** The device has been given this request, if it is a write. */
  predicate WriteSent(s: State, r: Req) {
    r.isRead || r in s.sent
  }

  /** A write is given to the device with its own data when it is launched, and not before. */
  ghost predicate SentOk(s: State) {
    && (forall r | r in s.sent :: !r.isRead && s.sent[r] == r.data && r in s.admitted)
    && (forall u | 0 <= u < |s.units| && s.units[u].llm.Some? ::
          if s.units[u].sub.Away? then WriteSent(s, s.units[u].llm.value) else s.units[u].llm.value !in s.sent)
    && (Held(s.pc).Some? ==> WriteSent(s, Held(s.pc).value))
    && forall r | r in s.ended :: WriteSent(s, r)
  }

  ghost predicate Inv(s: State) {
    && |s.units| > 0 && !s.fault && PcInRange(s)
    && UnitsOk(s) && Accounted(s) && SentOk(s)
  }

  lemma {:induction false} InitInv(s: State)
    requires Init(s)
    ensures Inv(s)
  {
  }

  // ---- preservation of the unit invariant -----------------------------------------------------

  lemma {:induction false} SubmitUnits(s: State, step: Step)
    requires Inv(s) && Enabled(s, step) && !step.Thread?
    ensures UnitsOk(Next(s, step)) && !Next(s, step).fault
  {
    hide SentOk, Accounted;
    var u := step.u;
    assert UnitOk(s.units[u], s.pc, u);
    var s' := Next(s, step);
    assert UnitOk(s'.units[u], s.pc, u);
    forall v | 0 <= v < |s'.units| ensures UnitOk(s'.units[v], s'.pc, v) {
      if v != u { assert UnitOk(s.units[v], s.pc, v); }
    }
  }

  lemma {:induction false} SubmitSent(s: State, step: Step)
    requires Inv(s) && Enabled(s, step) && !step.Thread?
    ensures SentOk(Next(s, step))
  {
    var u := step.u;
    assert UnitOk(s.units[u], s.pc, u);
    var s' := Next(s, step);
    forall v | 0 <= v < |s'.units| && s'.units[v].llm.Some?
      ensures if s'.units[v].sub.Away? then WriteSent(s', s'.units[v].llm.value) else s'.units[v].llm.value !in s'.sent
    {
      if s.units[v].llm.Some? { assert InSlot(s, s.units[v].llm.value); }
      if step.Launch? && v != u { assert s.units[u].llm.value != s.units[v].llm.value; }
    }
    if step.Launch? { assert InSlot(s, s.units[u].llm.value); }
  }

  lemma {:induction false} ThreadSent(s: State)
    requires Inv(s)
    ensures SentOk(ThreadStep(s))
  {
    hide Accounted;
    if s.pc.i < |s.units| { assert UnitOk(s.units[s.pc.i], s.pc, s.pc.i); }
  }

  lemma {:induction false} LookedAtUnit(pc: Pc, x: Unit)
    requires UnitOk(x, pc, pc.i)
    ensures UnitOk(UnitAfter(pc, x), PcAfter(pc, x), pc.i) && !FaultAt(pc, x)
  {
  }

  lemma {:induction false} OtherUnit(pc: Pc, x: Unit, y: Unit, u: nat)
    requires UnitOk(x, pc, pc.i) && UnitOk(y, pc, u) && u != pc.i
    ensures UnitOk(y, PcAfter(pc, x), u)
  {
  }

  lemma {:induction false} AtEndUnit(pc: Pc, y: Unit, u: nat)
    requires UnitOk(y, pc, u) && u < pc.i && (pc.Poll? || pc.Scan?)
    ensures UnitOk(y, PcAtEnd(pc), u)
  {
  }

  lemma {:induction false} ThreadUnits(s: State)
    requires Inv(s)
    ensures UnitsOk(ThreadStep(s)) && !ThreadStep(s).fault && PcInRange(ThreadStep(s))
  {
    hide Accounted, UnitOk;
    if s.pc.i == |s.units| {
      forall u | 0 <= u < |s.units| ensures UnitOk(s.units[u], PcAtEnd(s.pc), u) { AtEndUnit(s.pc, s.units[u], u); }
    } else {
      var x := s.units[s.pc.i];
      LookedAtUnit(s.pc, x);
      forall u | 0 <= u < |s.units| && u != s.pc.i ensures UnitOk(s.units[u], PcAfter(s.pc, x), u) {
        OtherUnit(s.pc, x, s.units[u], u);
      }
    }
  }

  // ---- every request is in exactly one place --------------------------------------------------

  /** A step that leaves slots, hand and history alone. */
  lemma {:induction false} AccountedFrame(s: State, s': State)
    requires Accounted(s)
    requires |s'.units| == |s.units| && forall u | 0 <= u < |s.units| :: s'.units[u].llm == s.units[u].llm
    requires Held(s'.pc) == Held(s.pc) && s'.ended == s.ended && s'.admitted == s.admitted
    ensures Accounted(s')
  {
    forall r ensures InSlot(s', r) <==> InSlot(s, r) {
      if u :| 0 <= u < |s.units| && s.units[u].llm == Some(r) { assert s'.units[u].llm == Some(r); }
    }
  }

  /** Admission puts a new request in a slot. */
  lemma {:induction false} AccountedAdmit(s: State, u: nat, r: Req)
    requires Accounted(s) && u < |s.units| && s.units[u].llm.None? && r !in s.admitted
    ensures Accounted(Next(s, Admit(u, r)))
  {
    var s' := Next(s, Admit(u, r));
    assert s'.units[u].llm == Some(r);
    forall q ensures InSlot(s', q) <==> q == r || InSlot(s, q) {
      if v :| 0 <= v < |s.units| && s.units[v].llm == Some(q) { assert s'.units[v].llm == Some(q); }
    }
  }

  /** Taking a completion moves the request from its slot to the thread's hand. */
  lemma {:induction false} AccountedTake(s: State, u: nat)
    requires Accounted(s) && s.pc == Scan(u) && u < |s.units| && s.units[u].ps && s.units[u].llm.Some?
    ensures Accounted(ThreadStep(s))
  {
    var s' := ThreadStep(s);
    var r := s.units[u].llm.value;
    assert InSlot(s, r);
    forall q ensures InSlot(s', q) <==> q != r && InSlot(s, q) {
      if v :| 0 <= v < |s.units| && s.units[v].llm == Some(q) { assert v != u ==> s'.units[v].llm == Some(q); }
    }
  }

  /** Ending moves it to the history. */
  lemma {:induction false} AccountedEnd(s: State)
    requires Accounted(s) && s.pc.Copied? && PcInRange(s)
    ensures Accounted(ThreadStep(s))
  {
    var s' := ThreadStep(s);
    assert s'.units == s.units;
    forall q ensures q in s'.ended <==> q in s.ended || q == s.pc.r {}
  }

  lemma {:induction false} ThreadAccounted(s: State)
    requires Inv(s)
    ensures Accounted(ThreadStep(s))
  {
    hide Accounted, UnitOk, UnitsOk;
    if s.pc.Copied? {
      AccountedEnd(s);
    } else if s.pc.Scan? && s.pc.i < |s.units| && s.units[s.pc.i].ps && s.units[s.pc.i].llm.Some? {
      AccountedTake(s, s.pc.i);
    } else {
      AccountedFrame(s, ThreadStep(s));
    }
  }

  lemma {:induction false} StepAccounted(s: State, step: Step)
    requires Inv(s) && Enabled(s, step)
    ensures Accounted(Next(s, step))
  {
    hide Accounted, UnitOk, UnitsOk, ThreadStep;
    match step
    case Admit(u, r) => if s.units[u].llm.None? { AccountedAdmit(s, u, r); }
    case Thread => ThreadAccounted(s);
    case _ => AccountedFrame(s, Next(s, step));
  }

  /** Every step keeps the invariant. */
  lemma {:induction false} StepInv(s: State, step: Step)
    requires Inv(s) && Enabled(s, step)
    ensures Inv(Next(s, step))
  {
    hide Accounted, UnitOk, UnitsOk, SentOk;
    StepAccounted(s, step);
    if step.Thread? {
      ThreadUnits(s);
      ThreadSent(s);
    } else {
      SubmitUnits(s, step);
      SubmitSent(s, step);
    }
  }

  lemma {:induction false} NextIsThread(s: State)
    requires Inv(s)
    ensures Enabled(s, Thread) && Next(s, Thread) == ThreadStep(s)
  {
  }

  // ---- whole runs ------------------------------------------------------------------------------

  /** The steps can be taken one after another from s. */
  ghost predicate CanRun(s: State, steps: seq<Step>)
    decreases |steps|
  {
    steps != [] ==> Enabled(s, steps[0]) && CanRun(Next(s, steps[0]), steps[1..])
  }

  /** The state they lead to. */
  ghost function After(s: State, steps: seq<Step>): State
    requires CanRun(s, steps)
    decreases |steps|
  {
    if steps == [] then s else After(Next(s, steps[0]), steps[1..])
  }

  lemma {:induction false} RunInv(s: State, steps: seq<Step>)
    requires Inv(s) && CanRun(s, steps)
    ensures Inv(After(s, steps))
    decreases |steps|
  {
    hide Inv, Enabled, Next;
    if steps != [] {
      StepInv(s, steps[0]);
      RunInv(Next(s, steps[0]), steps[1..]);
    }
  }

  /** In every run from the start, whatever the interleaving: no request that the proxy admitted is
      refused by the kernel, no impossible branch is reached, every write that has ended or that its
      submitter has left was given to the device with its own data, and each admitted request has
      ended exactly once or is still in exactly one place on its way. */
  lemma {:induction false} RunsAreSafe(s: State, steps: seq<Step>)
    requires Init(s) && CanRun(s, steps)
    ensures var e := After(s, steps);
            && !e.fault
            && NoDup(e.ended)
            && (forall r :: r in e.admitted <==> r in e.ended || Held(e.pc) == Some(r) || InSlot(e, r))
            && (forall r | r in e.ended :: Held(e.pc) != Some(r) && !InSlot(e, r))
            && (forall r | r in e.sent :: !r.isRead && e.sent[r] == r.data && r in e.admitted)
            && (forall r | r in e.ended && !r.isRead :: r in e.sent && e.sent[r] == r.data)
            && (forall u | 0 <= u < |e.units| && e.units[u].llm.Some? && !e.units[u].llm.value.isRead ::
                  e.units[u].llm.value in e.sent <==> e.units[u].sub.Away?)
  {
    InitInv(s);
    RunInv(s, steps);
  }

  // ---- read data ---------------------------------------------------------------------------------

  /** The submitter's discipline: no new request to a unit before the previous one has been ended. */
  predicate Orderly(s: State, step: Step) {
    step.Admit? ==> !((s.pc.Taken? || s.pc.Copied?) && s.pc.i == step.u)
  }

  ghost predicate OrderlyRun(s: State, steps: seq<Step>)
    requires CanRun(s, steps)
    decreases |steps|
  {
    steps != [] ==> Orderly(s, steps[0]) && OrderlyRun(Next(s, steps[0]), steps[1..])
  }

  /** The device has finished the request of this unit. */
  predicate DeviceDone(x: Unit) {
    x.llm.Some? && (x.busy == 2 || (x.busy == 0 && x.sub.Away?))
  }

  /** The shared page keeps a finished read's answer until the thread has copied it out. */
  ghost predicate DataOk(s: State) {
    && (forall u | 0 <= u < |s.units| && DeviceDone(s.units[u]) && s.units[u].llm.value.isRead ::
          s.units[u].page == s.units[u].llm.value.data)
    && (PcInRange(s) && (s.pc.Taken? || s.pc.Copied?) ==> s.units[s.pc.i].llm.None?)
    && (PcInRange(s) && s.pc.Taken? && s.pc.r.isRead ==> s.units[s.pc.i].page == s.pc.r.data)
    && (s.pc.Copied? && s.pc.r.isRead ==> s.pc.r in s.got)
    && (forall r | r in s.ended && r.isRead :: r in s.got)
    && (forall r | r in s.got :: s.got[r] == r.data)
  }

  lemma {:induction false} SubmitData(s: State, step: Step)
    requires Inv(s) && DataOk(s) && Enabled(s, step) && Orderly(s, step) && !step.Thread?
    ensures DataOk(Next(s, step))
  {
    hide Accounted;
    assert UnitOk(s.units[step.u], s.pc, step.u);
    var s' := Next(s, step);
    forall u | 0 <= u < |s'.units| && DeviceDone(s'.units[u]) && s'.units[u].llm.value.isRead
      ensures s'.units[u].page == s'.units[u].llm.value.data
    {
      if u != step.u { assert DeviceDone(s.units[u]); }
    }
  }

  lemma {:induction false} ThreadFinishesNothing(s: State, u: nat)
    requires PcInRange(s) && u < |s.units| && DeviceDone(ThreadStep(s).units[u])
    ensures DeviceDone(s.units[u]) && ThreadStep(s).units[u].llm == s.units[u].llm
    ensures ThreadStep(s).units[u].page == s.units[u].page
  {
  }

  lemma {:induction false} ThreadData(s: State)
    requires Inv(s) && DataOk(s)
    ensures DataOk(ThreadStep(s))
  {
    hide Accounted;
    var s' := ThreadStep(s);
    if s.pc.i < |s.units| { assert UnitOk(s.units[s.pc.i], s.pc, s.pc.i); }
    assert forall u | 0 <= u < |s'.units| && DeviceDone(s'.units[u]) && s'.units[u].llm.value.isRead ::
        s'.units[u].page == s'.units[u].llm.value.data by {
      hide ThreadStep, UnitOk;
      forall u | 0 <= u < |s'.units| && DeviceDone(s'.units[u]) && s'.units[u].llm.value.isRead
        ensures s'.units[u].page == s'.units[u].llm.value.data
      {
        ThreadFinishesNothing(s, u);
      }
    }
  }

  lemma {:induction false} RunData(s: State, steps: seq<Step>)
    requires Inv(s) && DataOk(s) && CanRun(s, steps) && OrderlyRun(s, steps)
    ensures DataOk(After(s, steps))
    decreases |steps|
  {
    hide Inv, DataOk, Enabled, Orderly, Next, ThreadStep;
    if steps != [] {
      StepInv(s, steps[0]);
      if steps[0].Thread? { NextIsThread(s); ThreadData(s); }
      else { SubmitData(s, steps[0]); }
      RunData(Next(s, steps[0]), steps[1..]);
    }
  }

  /** In every orderly run each ended read has returned what the device answered. */
  lemma {:induction false} OrderlyRunsReadTheirData(s: State, steps: seq<Step>)
    requires Init(s) && CanRun(s, steps) && OrderlyRun(s, steps)
    ensures forall r | r in After(s, steps).ended && r.isRead ::
              r in After(s, steps).got && After(s, steps).got[r] == r.data
  {
    InitInv(s);
    RunData(s, steps);
  }

  /** The discipline is needed: the slot is given up before the data is copied, so from every
      reachable state in which a read has been taken, a write to the same unit is admitted and
      can overwrite the shared page, and the read then returns the write's data. */
  lemma {:induction false} EagerWriterOverwritesRead(s: State, u: nat, r: Req, w: Req)
    requires Inv(s) && s.pc == Taken(u, r) && r.isRead && s.units[u].llm.None?
    requires !w.isRead && w !in s.admitted
    ensures CanRun(s, [Admit(u, w), Fill(u), Thread])
    ensures After(s, [Admit(u, w), Fill(u), Thread]).got == s.got[r := w.data]
  {
    var s1 := Next(s, Admit(u, w));
    var s2 := Next(s1, Fill(u));
    var s3 := Next(s2, Thread);
    assert [Fill(u), Thread] == [Admit(u, w), Fill(u), Thread][1..];
    assert [Thread] == [Fill(u), Thread][1..];
    assert [] == [Thread][1..];
    assert CanRun(s3, []) && CanRun(s2, [Thread]) && CanRun(s1, [Fill(u), Thread]);
    assert After(s2, [Thread]) == After(s3, []) == s3;
    assert After(s1, [Fill(u), Thread]) == s3;
  }

  /** Such a state is reached by a first read on a single unit. */
  lemma {:induction false} TakenIsReached(r: Req, page: int) returns (s: State, steps: seq<Step>)
    requires r.isRead
    ensures Init(s) && CanRun(s, steps) && OrderlyRun(s, steps)
    ensures After(s, steps).pc == Taken(0, r) && After(s, steps).admitted == {r}
    ensures |After(s, steps).units| == 1 && After(s, steps).units[0].llm.None?
  {
    s := State([Idle(page)], Poll(0, false), {}, [], map[], map[], false);
    var u1 := Unit(Some(r), false, Away, 1, Some(r), Some(r), Some(r), page);
    var s4 := State([u1], Poll(0, false), {r}, [], map[], map[], false);
    var first := [Admit(0, r), Fill(0), Enter(0), Launch(0)];
    steps := first + [Complete(0), Thread, Thread, Thread, Thread];
    Reaches4(s, s4, first[0], first[1], first[2], first[3]);
    var u2 := Unit(Some(r), true, Away, 0, None, None, None, r.data);
    var s8 := State([u2], Scan(0), {r}, [], map[], map[], false);
    Reaches4(s4, s8, Complete(0), Thread, Thread, Thread);
    assert CanRun(s8, [Thread]) && OrderlyRun(s8, [Thread]) by { assert [Thread][1..] == []; }
    assert After(s8, [Thread]) == ThreadStep(s8) by { assert [Thread][1..] == []; }
    RunSplit(s4, [Complete(0), Thread, Thread, Thread], [Thread]);
    assert [Complete(0), Thread, Thread, Thread] + [Thread] == [Complete(0), Thread, Thread, Thread, Thread];
    RunSplit(s, first, [Complete(0), Thread, Thread, Thread, Thread]);
  }

  lemma {:induction false} Reaches4(s: State, s': State, a: Step, b: Step, c: Step, d: Step)
    requires Enabled(s, a) && Orderly(s, a)
    requires var s1 := Next(s, a); Enabled(s1, b) && Orderly(s1, b)
    requires var s2 := Next(Next(s, a), b); Enabled(s2, c) && Orderly(s2, c)
    requires var s3 := Next(Next(Next(s, a), b), c); Enabled(s3, d) && Orderly(s3, d) && Next(s3, d) == s'
    ensures CanRun(s, [a, b, c, d]) && OrderlyRun(s, [a, b, c, d]) && After(s, [a, b, c, d]) == s'
  {
    hide Enabled, Next, Orderly;
    var s1 := Next(s, a);
    var s2 := Next(s1, b);
    var s3 := Next(s2, c);
    assert [a, b, c, d][1..] == [b, c, d] && [b, c, d][1..] == [c, d] && [c, d][1..] == [d] && [d][1..] == [];
    assert CanRun(s', []) && CanRun(s3, [d]) && CanRun(s2, [c, d]) && CanRun(s1, [b, c, d]);
    assert OrderlyRun(s', []);
    assert OrderlyRun(s3, [d]);
    assert OrderlyRun(s2, [c, d]);
    assert OrderlyRun(s1, [b, c, d]);
    assert After(s3, [d]) == After(s', []) == s';
    assert After(s2, [c, d]) == s' && After(s1, [b, c, d]) == s';
  }

  lemma {:induction false} RunSplit(s: State, a: seq<Step>, b: seq<Step>)
    requires CanRun(s, a) && CanRun(After(s, a), b)
    ensures CanRun(s, a + b) && After(s, a + b) == After(After(s, a), b)
    ensures OrderlyRun(s, a) && OrderlyRun(After(s, a), b) ==> OrderlyRun(s, a + b)
    decreases |a|
  {
    hide Enabled, Next, Orderly;
    if a == [] {
      assert a + b == b;
    } else {
      RunSplit(Next(s, a[0]), a[1..], b);
      assert (a + b)[1..] == a[1..] + b;
    }
  }

  /** A run in which a read returns the data of a later write. */
  lemma {:induction false} ReadCanBeOverwritten(r: Req, w: Req, page: int) returns (s: State, steps: seq<Step>)
    requires r.isRead && !w.isRead
    ensures Init(s) && CanRun(s, steps) && r in After(s, steps).got && After(s, steps).got[r] == w.data
  {
    var prefix;
    s, prefix := TakenIsReached(r, page);
    InitInv(s);
    RunInv(s, prefix);
    EagerWriterOverwritesRead(After(s, prefix), 0, r, w);
    RunSplit(s, prefix, [Admit(0, w), Fill(0), Thread]);
    steps := prefix + [Admit(0, w), Fill(0), Thread];
  }

  /** A request is admitted exactly when its unit's slot is empty, whatever the other units do. */
  lemma {:induction false} AdmittedIffFree(s: State, u: nat, r: Req)
    requires Inv(s) && u < |s.units| && r !in s.admitted
    ensures Enabled(s, Admit(u, r))
    ensures r in Next(s, Admit(u, r)).admitted <==> forall q :: s.units[u].llm != Some(q)
    ensures r in Next(s, Admit(u, r)).admitted ==> InSlot(Next(s, Admit(u, r)), r)
    ensures r !in Next(s, Admit(u, r)).admitted ==> Next(s, Admit(u, r)) == s
  {
    hide UnitsOk, Accounted, SentOk;
    var s' := Next(s, Admit(u, r));
    if s.units[u].llm.None? { assert s'.units[u].llm == Some(r); }
    else { assert s.units[u].llm == Some(s.units[u].llm.value); }
  }

  // ---- no completion is lost ------------------------------------------------------------------

  /** A request in a unit always has its next step enabled, up to the device's completion. */
  lemma {:induction false} NotStuck(s: State, u: nat)
    requires Inv(s) && u < |s.units| && s.units[u].llm.Some?
    ensures Enabled(s, Fill(u)) || Enabled(s, Enter(u)) || Enabled(s, Launch(u)) || Enabled(s, Complete(u))
            || DeviceDone(s.units[u])
    ensures Enabled(s, Thread)
  {
    assert UnitOk(s.units[u], s.pc, u);
  }

  /** Request r of unit u is done at the device and not yet ended. */
  predicate Finishing(s: State, u: nat, r: Req) {
    u < |s.units| && (Held(s.pc) == Some(r) || (s.units[u].llm == Some(r) && DeviceDone(s.units[u])))
  }

  /** Where the thread is in its round over p units, counted in steps. */
  function Position(pc: Pc, p: nat): int {
    match pc
    case Poll(i, _) => 2 * i
    case Mark(i, _) => 2 * i + 1
    case Scan(i) => 2 * p + 1 + 4 * i
    case Taken(i, _) => 2 * p + 2 + 4 * i
    case Copied(i, _) => 2 * p + 3 + 4 * i
    case Ended(i) => 2 * p + 4 + 4 * i
  }

  /** A bound on the thread steps before r is ended. */
  function StepsLeft(s: State, u: nat, r: Req): int
    requires u < |s.units|
  {
    if Held(s.pc) == Some(r) then if s.pc.Taken? then 2 else 1
    else InUnit(s.pc, s.units[u], |s.units|, u)
  }

  /** The bound while the request is still in its slot: to the next poll of the unit, if the
      kernel has not yet reported it, and then to the scan of its flag. */
  function InUnit(pc: Pc, x: Unit, p: nat, u: nat): int {
    var at := Position(pc, p);
    if x.busy == 2 then 6 * p + 2 + (if at <= 2 * u then 2 * u - at else 6 * p + 2 - at + 2 * u)
    else 2 * p + 4 + 4 * u - at
  }

  lemma {:induction false} NearerHere(pc: Pc, x: Unit, p: nat)
    requires UnitOk(x, pc, pc.i) && DeviceDone(x) && pc.i < p
    ensures if pc.Scan? && x.ps then PcAfter(pc, x) == Taken(pc.i, x.llm.value) && InUnit(pc, x, p, pc.i) == 3
            else var y := UnitAfter(pc, x);
              DeviceDone(y) && y.llm == x.llm && InUnit(PcAfter(pc, x), y, p, pc.i) < InUnit(pc, x, p, pc.i)
  {
  }

  lemma {:induction false} NearerElsewhere(pc: Pc, x: Unit, y: Unit, p: nat, u: nat)
    requires UnitOk(y, pc, u) && DeviceDone(y) && u < p && pc.i < p && u != pc.i
    ensures InUnit(PcAfter(pc, x), y, p, u) < InUnit(pc, y, p, u)
  {
  }

  lemma {:induction false} NearerAtEnd(pc: Pc, y: Unit, p: nat, u: nat)
    requires UnitOk(y, pc, u) && DeviceDone(y) && u < p == pc.i && (pc.Poll? || pc.Scan?)
    ensures InUnit(PcAtEnd(pc), y, p, u) < InUnit(pc, y, p, u)
  {
  }

  lemma {:induction false} StepsLeftBound(s: State, u: nat, r: Req)
    requires Inv(s) && Finishing(s, u, r)
    ensures 0 < StepsLeft(s, u, r) <= 12 * |s.units| + 4
  {
    hide Accounted;
    assert UnitOk(s.units[u], s.pc, u);
  }

  lemma {:induction false} TakesAnother(s: State, u: nat)
    requires Inv(s) && u < |s.units| && s.pc.i < |s.units| && s.pc.i != u && s.units[u].llm.Some?
    ensures Held(PcAfter(s.pc, s.units[s.pc.i])) != s.units[u].llm
  {
  }

  /** Each thread step ends the request or brings its end nearer. */
  lemma {:induction false} ThreadProgress(s: State, u: nat, r: Req)
    requires Inv(s) && Finishing(s, u, r)
    ensures var s' := ThreadStep(s); r in s'.ended || (Finishing(s', u, r) && StepsLeft(s', u, r) < StepsLeft(s, u, r))
  {
    hide Accounted, InUnit;
    assert UnitOk(s.units[u], s.pc, u);
    hide UnitsOk, UnitOk;
    if Held(s.pc) == Some(r) {
    } else if s.pc.i == |s.units| {
      NearerAtEnd(s.pc, s.units[u], |s.units|, u);
    } else if s.pc.i == u {
      NearerHere(s.pc, s.units[u], |s.units|);
    } else {
      TakesAnother(s, u);
      NearerElsewhere(s.pc, s.units[s.pc.i], s.units[u], |s.units|, u);
    }
  }

  /** Nobody else's step delays it. */
  lemma {:induction false} OthersDoNotDelay(s: State, step: Step, u: nat, r: Req)
    requires Inv(s) && Enabled(s, step) && !step.Thread? && Finishing(s, u, r)
    ensures Finishing(Next(s, step), u, r) && StepsLeft(Next(s, step), u, r) == StepsLeft(s, u, r)
  {
    hide Accounted;
    assert UnitOk(s.units[u], s.pc, u);
  }

  function ThreadSteps(steps: seq<Step>): nat {
    if steps == [] then 0 else (if steps[0].Thread? then 1 else 0) + ThreadSteps(steps[1..])
  }

  lemma {:induction false} EndedStays(s: State, steps: seq<Step>, r: Req)
    requires CanRun(s, steps) && r in s.ended
    ensures r in After(s, steps).ended
    decreases |steps|
  {
    if steps != [] {
      assert r in Next(s, steps[0]).ended;
      EndedStays(Next(s, steps[0]), steps[1..], r);
    }
  }

  /** No completion is lost: whatever the others do, a request the device has finished is ended
      once the proxy thread has taken the steps of at most two rounds. */
  lemma {:induction false} CompletionIsDelivered(s: State, steps: seq<Step>, u: nat, r: Req)
    requires Inv(s) && CanRun(s, steps) && Finishing(s, u, r)
    requires ThreadSteps(steps) >= StepsLeft(s, u, r)
    ensures r in After(s, steps).ended
    decreases |steps|
  {
    hide Inv, Enabled, Next, Finishing, StepsLeft, ThreadStep;
    StepsLeftBound(s, u, r);
    var s' := Next(s, steps[0]);
    StepInv(s, steps[0]);
    if steps[0].Thread? {
      NextIsThread(s);
      ThreadProgress(s, u, r);
      if r in s'.ended { EndedStays(s', steps[1..], r); } else { CompletionIsDelivered(s', steps[1..], u, r); }
    } else {
      OthersDoNotDelay(s, steps[0], u, r);
      CompletionIsDelivered(s', steps[1..], u, r);
    }
  }

}
