// Workers, senders, creators and killers of services (skynet_server.c, skynet_mq.c, skynet_handle.c)
// as a state machine: one step for each locked region or atomic operation.

module Scheduler {
  import opened Mailbox

  /**
   * A service and its mailbox. 'registered': the handle finds it. 'pushed', 'delivered' and 'dropped'
   * record what went into the mailbox and where it went from there.
   */
  datatype Service = Service(
    box: Box, freed: bool, registered: bool, ref: int, init: bool,
    pushed: seq<Message>, delivered: seq<Message>, dropped: seq<Message>)

  /** What a thread goes on with after it gave up a reference. */
  datatype Then = Finish | Hold(q: nat) | Launch(q: nat) | Failed(q: nat) | Abandon(q: nat)

  /** Where a thread is: what it is about to do, and the mailboxes and contexts it holds. */
  datatype Pc =
    | Idle
    | Has(q: nat)
    | Take(q: nat, i: nat, n: nat)
    | Count(q: nat, m: Message, n: nat)
    | Callback(q: nat, m: Message, i: nat, n: nat)
    | Done(q: nat)
    | Swap(q: nat, nq: nat)
    | Unref(h: nat, next: Then)
    | Delete(h: nat, next: Then)
    | Drop(q: nat)
    | Dropping(q: nat)
    | Push(h: nat, m: Message)
    | Init(q: nat)
    | SetInit(q: nat)
    | Enqueue(q: nat)
    | Retire(q: nat)

  datatype State = State(services: map<nat, Service>, list: seq<nat>, threads: map<nat, Pc>)

  const START := State(map[], [], map[])

  /** What a thread that has a choice does. */
  datatype Choice =
    | GlobalPop
    | Send(h: nat, m: Message)
    | Kill(h: nat)
    | Create(h: nat)
    | Weight(w: int)
    | Succeed
    | Fail

  function PcOf(s: State, t: nat): Pc { if t in s.threads then s.threads[t] else Idle }

  predicate Registered(s: State, h: nat) { h in s.services && s.services[h].registered }

  function ShiftRight(n: nat, w: nat): nat
    decreases w
  {
    if w == 0 then n else ShiftRight(n / 2, w - 1)
  }

  /** How many messages a worker takes before it passes the mailbox on. */
  function BatchSize(length: nat, w: int, n: nat): nat {
    if w < 0 then n else ShiftRight(length, w)
  }

  function Resume(next: Then, deleted: bool): Pc {
    match next
    case Finish => Idle
    case Hold(q) => Has(q)
    case Launch(q) => if deleted then Enqueue(q) else SetInit(q)
    case Failed(q) => Retire(q)
    case Abandon(q) => Drop(q)
  }

  function NewService(): Service { Service(NEW_BOX, false, true, 2, false, [], [], []) }

  /** The state after thread 't' did its part: services, global queue and its own place. */
  function With(s: State, t: nat, h: nat, sv: Service, list: seq<nat>, pc: Pc): State {
    State(s.services[h := sv], list, s.threads[t := pc])
  }

  function Goto(s: State, t: nat, list: seq<nat>, pc: Pc): State {
    State(s.services, list, s.threads[t := pc])
  }

  /** The service of a thread's place, where it has one. */
  function HandleOf(pc: Pc): (h: nat)
    requires !pc.Idle?
  {
    if pc.Unref? || pc.Delete? || pc.Push? then pc.h else pc.q
  }

  /** What becomes of a thread, of the service it works on and of the global queue. */
  datatype Move = Move(sv: Service, list: seq<nat>, pc: Pc)

  /** What a thread at 'pc' does next to its service and the global queue. */
  function MoveOf(pc: Pc, sv: Service, list: seq<nat>, c: Choice): Move
    requires !pc.Idle?
  {
    match pc
    case Has(q) =>
      if sv.registered then Move(sv.(ref := sv.ref + 1), list, Take(q, 0, 1)) else Move(sv, list, Drop(q))
    case Take(q, i, n) =>
      if sv.box.msgs == [] then Move(sv.(box := PopBox(sv.box)), list, Unref(q, Finish))
      else
        var m := sv.box.msgs[0];
        var sv' := sv.(box := PopBox(sv.box), delivered := sv.delivered + [m]);
        Move(sv', list, if i == 0 then Count(q, m, n) else Callback(q, m, i, n))
    case Count(q, m, n) =>
      if c.Weight? then Move(sv, list, Callback(q, m, 0, BatchSize(|sv.box.msgs|, c.w, n)))
      else Move(sv, list, pc)
    case Callback(q, m, i, n) => Move(sv, list, if i + 1 < n then Take(q, i + 1, n) else Done(q))
    case Done(q) =>
      if list == [] then Move(sv, list, Unref(q, Hold(q))) else Move(sv, list[1..], Swap(q, list[0]))
    case Swap(q, nq) => Move(sv, list + [q], Unref(q, Hold(nq)))
    case Unref(h, next) =>
      var left := sv.ref - 1;
      Move(sv.(ref := left), list, if left == 0 then Delete(h, next) else Resume(next, false))
    case Delete(h, next) =>
      Move(sv.(box := MarkBox(sv.box)), if sv.box.inGlobal then list else list + [h], Resume(next, true))
    case Drop(q) =>
      if sv.box.release then Move(sv, list, Dropping(q)) else Move(sv, list + [q], Idle)
    case Dropping(q) =>
      if sv.box.msgs == [] then Move(sv.(box := PopBox(sv.box), freed := true), list, Idle)
      else Move(sv.(box := PopBox(sv.box), dropped := sv.dropped + [sv.box.msgs[0]]), list, pc)
    case Push(h, m) =>
      var sv' := sv.(box := PushBox(sv.box, m), pushed := sv.pushed + [m]);
      Move(sv', if sv.box.inGlobal then list else list + [h], Unref(h, Finish))
    case Init(q) =>
      if c.Succeed? then Move(sv, list, Unref(q, Launch(q)))
      else if c.Fail? then Move(sv, list, Unref(q, Failed(q)))
      else Move(sv, list, pc)
    case SetInit(q) => Move(sv.(init := true), list, Enqueue(q))
    case Enqueue(q) => Move(sv, list + [q], Idle)
    case Retire(q) =>
      if sv.registered then Move(sv.(registered := false), list, Unref(q, Abandon(q)))
      else Move(sv, list, Drop(q))
  }

  /** One step of thread 't'; a step that is not possible changes nothing. */
  function Step(s: State, t: nat, c: Choice): State {
    var pc := PcOf(s, t);
    if pc.Idle? then StepIdle(s, t, c)
    else if HandleOf(pc) !in s.services then s
    else
      var h := HandleOf(pc);
      var m := MoveOf(pc, s.services[h], s.list, c);
      With(s, t, h, m.sv, m.list, m.pc)
  }

  function StepIdle(s: State, t: nat, c: Choice): State {
    match c
    case GlobalPop => if s.list == [] then s else Goto(s, t, s.list[1..], Has(s.list[0]))
    case Send(h, m) =>
      if Registered(s, h) then
        With(s, t, h, s.services[h].(ref := s.services[h].ref + 1), s.list, Push(h, m))
      else s
    case Kill(h) =>
      if Registered(s, h) then
        With(s, t, h, s.services[h].(registered := false), s.list, Unref(h, Finish))
      else s
    case Create(h) =>
      if h in s.services then s else With(s, t, h, NewService(), s.list, Init(h))
    case _ => s
  }

  /** The state after a run: which thread moved, and how. */
  function Reach(run: seq<(nat, Choice)>): State {
    if run == [] then START
    else
      var last := run[|run| - 1];
      Step(Reach(run[..|run| - 1]), last.0, last.1)
  }

  // ---- Who holds a mailbox ----

  /** The mailboxes in a thread's hand. */
  function Tokens(pc: Pc): set<nat> {
    match pc
    case Idle => {}
    case Push(_, _) => {}
    case Swap(q, nq) => {q, nq}
    case Unref(_, next) => if next.Finish? then {} else {next.q}
    case Delete(_, next) => if next.Finish? then {} else {next.q}
    case _ => {pc.q}
  }

  /** The mailbox is queued, being dispatched, or waits for its end. */
  predicate Flag(s: State, h: nat) {
    h in s.services && Flagged(s.services[h])
  }

  predicate Flagged(sv: Service) { !sv.freed && (sv.box.inGlobal || sv.box.release) }

  predicate Distinct(list: seq<nat>) {
    forall i, j | 0 <= i < j < |list| :: list[i] != list[j]
  }

  /** In the global queue or in the hand of 't'. */
  predicate Mine(s: State, t: nat, h: nat) { h in s.list || h in Tokens(PcOf(s, t)) }

  /**
   * A mailbox is in at most one place: once in the global queue or in one thread's hand. It is in
   * such a place if and only if its flags say so.
   */
  ghost predicate TokenInv(s: State) {
    && Distinct(s.list)
    && (forall t, h | t in s.threads && h in Tokens(s.threads[t]) ::
          h !in s.list && Flag(s, h))
    && (forall t1, t2, h | t1 in s.threads && t2 in s.threads && t1 != t2 && h in Tokens(s.threads[t1]) ::
          h !in Tokens(s.threads[t2]))
    && (forall h | h in s.list :: Flag(s, h))
    && (forall h | Flag(s, h) && h !in s.list :: exists t :: t in s.threads && h in Tokens(s.threads[t]))
    && (forall t | t in s.threads && s.threads[t].Swap? :: s.threads[t].q != s.threads[t].nq)
  }

  /** A step of one thread keeps this if it accounts for the mailboxes that it sees. */
  lemma TokensLocal(s: State, s': State, t: nat, pc: Pc)
    requires TokenInv(s) && s'.threads == s.threads[t := pc]
    requires Distinct(s'.list) && (pc.Swap? ==> pc.q != pc.nq)
    requires forall h | h in Tokens(pc) :: h !in s'.list
    requires forall h :: Mine(s', t, h) <==> Flag(s', h) && (Mine(s, t, h) || !Flag(s, h))
    requires forall h :: Flag(s, h) && !Flag(s', h) ==> Mine(s, t, h)
    ensures TokenInv(s')
  {
    forall t2, h | t2 in s'.threads && h in Tokens(s'.threads[t2])
      ensures h !in s'.list && Flag(s', h)
      ensures t2 != t ==> h !in Tokens(pc)
    {
      if t2 != t {
        assert t2 in s.threads && h in Tokens(s.threads[t2]);
        assert !Mine(s, t, h);
        assert !Mine(s', t, h);
      } else {
        assert Mine(s', t, h);
      }
    }
    forall h | Flag(s', h) && h !in s'.list ensures exists t :: t in s'.threads && h in Tokens(s'.threads[t]) {
      if h in Tokens(pc) {
        assert t in s'.threads && h in Tokens(s'.threads[t]);
      } else {
        assert !Mine(s', t, h);
        var t2 :| t2 in s.threads && h in Tokens(s.threads[t2]);
        assert t2 in s'.threads && h in Tokens(s'.threads[t2]);
      }
    }
    forall h | h in s'.list ensures Flag(s', h) {
      assert Mine(s', t, h);
    }
  }

  // ---- Who holds a reference ----

  /** The thread holds a counted reference to the context of 'h'. */
  predicate HoldsRef(pc: Pc, h: nat) {
    match pc
    case Take(q, _, _) => q == h
    case Count(q, _, _) => q == h
    case Callback(q, _, _, _) => q == h
    case Done(q) => q == h
    case Swap(q, _) => q == h
    case Init(q) => q == h
    case Unref(x, _) => x == h
    case Push(x, _) => x == h
    case _ => false
  }

  function Holders(s: State, h: nat): set<nat> {
    set t | t in s.threads && HoldsRef(s.threads[t], h)
  }

  function One(b: bool): nat { if b then 1 else 0 }

  predicate Deletes(s: State, t: nat, h: nat) {
    t in s.threads && s.threads[t].Delete? && s.threads[t].h == h
  }

  /** A context counts the registry and the threads that hold it; its end is marked once, after that. */
  ghost predicate ServiceInv(s: State, h: nat)
    requires h in s.services
  {
    var sv := s.services[h];
    && sv.ref == One(sv.registered) + |Holders(s, h)|
    && (sv.box.release ==> sv.ref == 0)
    && (sv.freed ==> sv.box.release && sv.box.msgs == [])
    && (sv.ref == 0 && !sv.box.release ==> exists t :: Deletes(s, t, h))
  }

  ghost predicate RefInv(s: State) {
    && (forall h | h in s.services :: ServiceInv(s, h))
    && (forall t, h | t in s.threads && HoldsRef(s.threads[t], h) :: h in s.services)
    && (forall t, h | Deletes(s, t, h) :: h in s.services && s.services[h].ref == 0 && !s.services[h].box.release)
    && (forall t1, t2, h | Deletes(s, t1, h) && Deletes(s, t2, h) :: t1 == t2)
    && (forall t | t in s.threads && s.threads[t].Dropping? ::
          s.threads[t].q in s.services && s.services[s.threads[t].q].box.release)
  }

  lemma OneMore(others: set<nat>, t: nat)
    requires t !in others
    ensures |others + {t}| == |others| + 1
  {
  }

  lemma NoneIdle(h: nat)
    ensures !HoldsRef(Idle, h)
  {
  }

  lemma HoldersMove(s: State, s': State, t: nat, pc: Pc, h: nat)
    requires s'.threads == s.threads[t := pc]
    ensures |Holders(s', h)| + One(HoldsRef(PcOf(s, t), h)) == |Holders(s, h)| + One(HoldsRef(pc, h))
  {
    hide HoldsRef;
    NoneIdle(h);
    var others := Holders(s, h) - {t};
    OneMore(others, t);
    assert Holders(s, h) == if HoldsRef(PcOf(s, t), h) then others + {t} else others;
    assert Holders(s', h) == if HoldsRef(pc, h) then others + {t} else others;
  }

  lemma HolderCounts(s: State, t: nat, h: nat)
    requires RefInv(s) && t in s.threads && HoldsRef(s.threads[t], h)
    ensures h in s.services && s.services[h].ref > 0 && !s.services[h].box.release && !s.services[h].freed
    ensures !exists t2 :: Deletes(s, t2, h)
  {
    assert ServiceInv(s, h);
    assert t in Holders(s, h);
  }

  // ---- Launching ----

  /** The mailboxes in a thread's hand that it did not create, or has launched. */
  function Vouched(pc: Pc): set<nat> {
    match pc
    case Init(_) => {}
    case SetInit(_) => {}
    case Retire(_) => {}
    case Unref(_, next) => if next.Launch? || next.Failed? then {} else Tokens(pc)
    case Delete(_, next) => if next.Launch? || next.Failed? then {} else Tokens(pc)
    case _ => Tokens(pc)
  }

  predicate Launched(s: State, h: nat) { Registered(s, h) ==> s.services[h].init }

  predicate Works(pc: Pc) { pc.Take? || pc.Count? || pc.Callback? || pc.Done? || pc.Swap? }

  /** Only launched services are dispatched. */
  ghost predicate LaunchInv(s: State) {
    && (forall h | h in s.list :: Launched(s, h))
    && (forall h | h in s.services && !Flagged(s.services[h]) :: Launched(s, h))
    && (forall t, h | t in s.threads && h in Vouched(s.threads[t]) :: Launched(s, h))
    && (forall t | t in s.threads && Works(s.threads[t]) ::
          s.threads[t].q in s.services && s.services[s.threads[t].q].init)
    && (forall t | t in s.threads && s.threads[t].Unref? && s.threads[t].next.Launch? ::
          s.threads[t].h == s.threads[t].next.q)
    && (forall t | t in s.threads && s.threads[t].Delete? && s.threads[t].next.Launch? ::
          s.threads[t].h == s.threads[t].next.q)
  }

  // ---- Messages ----

  /**
   * Messages leave a mailbox in the order they were pushed, each of them once: to the dispatcher, or
   * to the drop function after the service has gone. Messages wait only in a mailbox that has a holder.
   */
  ghost predicate MessageInv(s: State) {
    forall h | h in s.services ::
      var sv := s.services[h];
      && sv.pushed == sv.delivered + sv.dropped + sv.box.msgs
      && (sv.dropped != [] ==> sv.box.release)
      && (sv.box.msgs != [] ==> Flag(s, h))
  }

  ghost predicate Inv(s: State) { TokenInv(s) && RefInv(s) && LaunchInv(s) && MessageInv(s) }

  // ---- Every step keeps the invariant ----

  /** The services of 's'' are those of 's' with one of them changed or added. */
  predicate Changed(s: State, s': State, t: nat, pc: Pc, h: nat, sv: Service) {
    s'.services == s.services[h := sv] && s'.threads == s.threads[t := pc]
  }

  /** The end of a context is pending: its count is gone and no one has marked its mailbox. */
  predicate Ending(sv: Service) { sv.ref == 0 && !sv.box.release }

  /** A step of a thread on one service accounts for references and ends. */
  ghost predicate RefsOk(pc0: Pc, pc: Pc, h: nat, sv0: Service, sv: Service) {
    && (forall x | x != h :: !HoldsRef(pc0, x) && !HoldsRef(pc, x))
    && sv.ref - One(sv.registered) - One(HoldsRef(pc, h)) ==
       sv0.ref - One(sv0.registered) - One(HoldsRef(pc0, h))
    && (sv.box.release ==> sv.ref == 0)
    && (sv.freed ==> sv.box.release && sv.box.msgs == [])
    && (pc0.Delete? ==> pc0.h == h && !Ending(sv))
    && (pc.Delete? ==> pc.h == h && Ending(sv) && !Ending(sv0))
    && (Ending(sv) ==> pc.Delete? || Ending(sv0))
    && (!Ending(sv) && Ending(sv0) ==> pc0.Delete?)
    && (pc.Dropping? ==> pc.q == h && sv.box.release)
    && (sv0.box.release ==> sv.box.release)
  }

  lemma RefsFlow(s: State, s': State, t: nat, pc: Pc, h: nat, sv: Service)
    requires RefInv(s) && Changed(s, s', t, pc, h, sv)
    requires h in s.services && RefsOk(PcOf(s, t), pc, h, s.services[h], sv)
    ensures RefInv(s')
  {
    hide HoldsRef, Holders;
    forall x | x in s'.services ensures ServiceInv(s', x) {
      HoldersMove(s, s', t, pc, x);
      NoneIdle(x);
      assert ServiceInv(s, x);
      if Ending(s'.services[x]) {
        if x == h && pc.Delete? {
          assert Deletes(s', t, x);
        } else {
          var t2 :| Deletes(s, t2, x);
          assert Deletes(s', t2, x);
        }
      }
    }
    forall t2, x | t2 in s'.threads && HoldsRef(s'.threads[t2], x) ensures x in s'.services {
      if t2 != t { assert t2 in s.threads && HoldsRef(s.threads[t2], x); }
    }
    forall t2, x | Deletes(s', t2, x) ensures x in s'.services && Ending(s'.services[x]) {
      if t2 != t {
        assert Deletes(s, t2, x);
        if PcOf(s, t).Delete? { assert Deletes(s, t, h); }
      }
    }
    forall t1, t2, x | Deletes(s', t1, x) && Deletes(s', t2, x) ensures t1 == t2 {
      if t1 != t { assert Deletes(s, t1, x); }
      if t2 != t { assert Deletes(s, t2, x); }
    }
  }

  predicate Fine(sv: Service) { sv.registered ==> sv.init }

  /** A step hands on only services that are launched or gone. */
  predicate LaunchOk(list0: seq<nat>, list: seq<nat>, pc0: Pc, pc: Pc, h: nat, sv0: Service, sv: Service) {
    && (sv.registered ==> sv0.registered) && (sv0.init ==> sv.init) && (!Flagged(sv) ==> Fine(sv))
    && (forall x | x in list :: x in list0 || (x == h && Fine(sv)))
    && (forall x | x in Vouched(pc) :: x in list0 || x in Vouched(pc0) || (x == h && Fine(sv)))
    && (Works(pc) ==> pc.q == h && sv.init)
    && ((pc.Unref? || pc.Delete?) && pc.next.Launch? ==> pc.h == pc.next.q)
  }

  lemma LaunchFlow(s: State, s': State, t: nat, pc: Pc, h: nat, sv: Service)
    requires LaunchInv(s) && Changed(s, s', t, pc, h, sv)
    requires h in s.services && LaunchOk(s.list, s'.list, PcOf(s, t), pc, h, s.services[h], sv)
    ensures LaunchInv(s')
  {
    forall x | Launched(s, x) ensures Launched(s', x) {
    }
    forall t2, x | t2 in s'.threads && x in Vouched(s'.threads[t2]) ensures Launched(s', x) {
      if t2 in s.threads && x in Vouched(s.threads[t2]) { assert Launched(s, x); }
    }
  }

  lemma MessageFlow(s: State, s': State, h: nat, sv: Service)
    requires MessageInv(s) && s'.services == s.services[h := sv]
    requires sv.pushed == sv.delivered + sv.dropped + sv.box.msgs
    requires sv.dropped != [] ==> sv.box.release
    requires sv.box.msgs != [] ==> Flag(s', h)
    ensures MessageInv(s')
  {
    forall x | x in s'.services && x != h && s'.services[x].box.msgs != [] ensures Flag(s', x) {
      assert Flag(s, x);
    }
  }

  /** What a thread holds is not queued; what no step touches keeps its flag. */
  lemma InHand(s: State, s': State, t: nat, pc: Pc, h: nat, sv: Service)
    requires TokenInv(s) && Changed(s, s', t, pc, h, sv)
    ensures forall x | x in Tokens(PcOf(s, t)) :: x !in s.list && Flag(s, x)
    ensures forall x | x != h :: Flag(s', x) == Flag(s, x)
    ensures Flag(s', h) == Flagged(sv)
  {
  }

  lemma QueueEnds(list: seq<nat>, h: nat)
    requires Distinct(list)
    ensures h !in list ==> Distinct(list + [h])
    ensures forall x :: x in list + [h] <==> x in list || x == h
    ensures list != [] ==> Distinct(list[1..]) && list[0] !in list[1..]
    ensures list != [] ==> forall x :: x in list <==> x in list[1..] || x == list[0]
  {
    if list != [] { assert list == [list[0]] + list[1..]; }
  }

  /** The mailboxes that a step moves: none, the first of the queue, or one to, into or out of it. */
  ghost predicate TokensOk(list0: seq<nat>, list: seq<nat>, pc0: Pc, pc: Pc, h: nat, sv0: Service, sv: Service) {
    && (pc.Swap? ==> list0 != [] && pc.q in Tokens(pc0) && pc.nq == list0[0])
    && (|| (list == list0 && Tokens(pc) == Tokens(pc0) && Flagged(sv) == Flagged(sv0))
        || (list0 != [] && list == list0[1..] && Tokens(pc) == Tokens(pc0) + {list0[0]} && Flagged(sv) == Flagged(sv0))
        || (list == list0 + [h] && h in Tokens(pc0) && Tokens(pc) == Tokens(pc0) - {h} && Flagged(sv) == Flagged(sv0))
        || (list == list0 + [h] && Tokens(pc) == Tokens(pc0) && !Flagged(sv0) && Flagged(sv))
        || (list == list0 && h in Tokens(pc0) && Tokens(pc) == Tokens(pc0) - {h} && !Flagged(sv)))
  }

  lemma TokensFlow(s: State, s': State, t: nat, pc: Pc, h: nat, sv: Service)
    requires TokenInv(s) && Changed(s, s', t, pc, h, sv) && h in s.services
    requires TokensOk(s.list, s'.list, PcOf(s, t), pc, h, s.services[h], sv)
    ensures TokenInv(s')
  {
    hide Tokens;
    InHand(s, s', t, pc, h, sv);
    QueueEnds(s.list, h);
    TokensLocal(s, s', t, pc);
  }

  predicate MessagesKept(sv: Service) {
    && sv.pushed == sv.delivered + sv.dropped + sv.box.msgs
    && (sv.dropped != [] ==> sv.box.release)
    && (sv.box.msgs != [] ==> Flagged(sv))
  }

  /** What a thread at 'pc' may rely on about its service. */
  ghost predicate Relied(pc: Pc, sv: Service, list: seq<nat>)
    requires !pc.Idle?
  {
    var h := HandleOf(pc);
    && MessagesKept(sv)
    && (sv.registered ==> sv.ref > 0)
    && (sv.box.release ==> sv.ref == 0)
    && (sv.freed ==> sv.box.release && sv.box.msgs == [])
    && (HoldsRef(pc, h) ==> sv.ref > 0)
    && (h in Tokens(pc) ==> Flagged(sv) && h !in list)
    && (h in Vouched(pc) ==> Fine(sv))
    && (Works(pc) ==> sv.init)
    && (!Flagged(sv) ==> Fine(sv))
    && ((pc.Delete? || pc.Unref?) && pc.next.Launch? ==> pc.h == pc.next.q)
    && (pc.Delete? ==> Ending(sv))
    && (pc.Dropping? ==> sv.box.release)
    && (pc.Swap? ==> pc.q != pc.nq)
  }

  lemma Known(s: State, t: nat)
    requires Inv(s) && !PcOf(s, t).Idle?
    ensures HandleOf(PcOf(s, t)) in s.services
    ensures Relied(PcOf(s, t), s.services[HandleOf(PcOf(s, t))], s.list)
  {
    var pc := PcOf(s, t);
    var h := HandleOf(pc);
    assert t in s.threads && s.threads[t] == pc;
    if HoldsRef(pc, h) { HolderCounts(s, t, h); }
    if h in Tokens(pc) { assert Flag(s, h) && h !in s.list; }
    if h in Vouched(pc) || (h in s.services && !Flagged(s.services[h])) { assert Launched(s, h); }
    if pc.Delete? { assert Deletes(s, t, pc.h); }
    assert ServiceInv(s, h);
  }

  lemma MoveRefs(pc: Pc, sv: Service, list: seq<nat>, c: Choice)
    requires !pc.Idle? && Relied(pc, sv, list)
    ensures var m := MoveOf(pc, sv, list, c); RefsOk(pc, m.pc, HandleOf(pc), sv, m.sv)
  {
  }

  lemma MoveLaunch(pc: Pc, sv: Service, list: seq<nat>, c: Choice)
    requires !pc.Idle? && Relied(pc, sv, list)
    ensures var m := MoveOf(pc, sv, list, c); LaunchOk(list, m.list, pc, m.pc, HandleOf(pc), sv, m.sv)
  {
  }

  lemma MoveMessages(pc: Pc, sv: Service, list: seq<nat>, c: Choice)
    requires !pc.Idle? && Relied(pc, sv, list)
    ensures MessagesKept(MoveOf(pc, sv, list, c).sv)
  {
    if sv.box.msgs != [] { assert sv.box.msgs == [sv.box.msgs[0]] + sv.box.msgs[1..]; }
  }

  lemma MoveTokens(pc: Pc, sv: Service, list: seq<nat>, c: Choice)
    requires !pc.Idle? && Relied(pc, sv, list)
    ensures var m := MoveOf(pc, sv, list, c); TokensOk(list, m.list, pc, m.pc, HandleOf(pc), sv, m.sv)
  {
  }

  lemma MoveKeeps(s: State, t: nat, c: Choice)
    requires Inv(s) && !PcOf(s, t).Idle?
    ensures Inv(Step(s, t, c))
  {
    hide MoveOf, RefsOk, LaunchOk, TokensOk, Relied;
    Known(s, t);
    var s', pc := Step(s, t, c), PcOf(s, t);
    var h := HandleOf(pc);
    var sv := s.services[h];
    var m := MoveOf(pc, sv, s.list, c);
    MoveRefs(pc, sv, s.list, c);
    MoveLaunch(pc, sv, s.list, c);
    MoveMessages(pc, sv, s.list, c);
    MoveTokens(pc, sv, s.list, c);
    TokensFlow(s, s', t, m.pc, h, m.sv);
    RefsFlow(s, s', t, m.pc, h, m.sv);
    LaunchFlow(s, s', t, m.pc, h, m.sv);
    MessageFlow(s, s', h, m.sv);
  }

  /** What is known of any service. */
  lemma Existing(s: State, h: nat)
    requires Inv(s) && h in s.services
    ensures var sv := s.services[h];
            && MessagesKept(sv)
            && (sv.registered ==> sv.ref > 0)
            && (sv.box.release ==> sv.ref == 0)
            && (sv.freed ==> sv.box.release && sv.box.msgs == [])
            && (!Flagged(sv) ==> Fine(sv))
  {
    assert ServiceInv(s, h);
    assert !Flagged(s.services[h]) ==> Launched(s, h);
    assert s.services[h].box.msgs != [] ==> Flag(s, h);
  }

  lemma IdleKeeps(s: State, t: nat, c: Choice, h: nat)
    requires Inv(s) && PcOf(s, t).Idle? && h in s.services
    requires c == Kill(h) || (c.Send? && c.h == h) || (c.GlobalPop? && s.list != [] && h == s.list[0])
    ensures Inv(Step(s, t, c))
  {
    hide TokenInv, RefInv, LaunchInv, MessageInv;
    Existing(s, h);
    var s' := Step(s, t, c);
    if s' != s {
      var pc, sv := s'.threads[t], s'.services[h];
      TokensFlow(s, s', t, pc, h, sv);
      RefsFlow(s, s', t, pc, h, sv);
      LaunchFlow(s, s', t, pc, h, sv);
      MessageFlow(s, s', h, sv);
    }
  }

  /** A created service is new to everyone: its creator holds it. */
  lemma CreateKeeps(s: State, t: nat, h: nat)
    requires Inv(s) && PcOf(s, t).Idle? && h !in s.services
    ensures Inv(Step(s, t, Create(h)))
  {
    hide TokenInv, RefInv, LaunchInv, MessageInv;
    var s' := Step(s, t, Create(h));
    CreateTokens(s, s', t, h);
    CreateRefs(s, s', t, h);
    CreateLaunch(s, s', t, h);
    MessageFlow(s, s', h, NewService());
  }

  lemma CreateTokens(s: State, s': State, t: nat, h: nat)
    requires TokenInv(s) && PcOf(s, t).Idle? && h !in s.services
    requires s' == With(s, t, h, NewService(), s.list, Init(h))
    ensures TokenInv(s')
  {
    TokensLocal(s, s', t, Init(h));
  }

  lemma CreateLaunch(s: State, s': State, t: nat, h: nat)
    requires TokenInv(s) && LaunchInv(s) && PcOf(s, t).Idle? && h !in s.services
    requires s' == With(s, t, h, NewService(), s.list, Init(h))
    ensures LaunchInv(s')
  {
    forall x | Launched(s, x) && x != h ensures Launched(s', x) {
    }
    forall t2, x | t2 in s'.threads && x in Vouched(s'.threads[t2]) ensures Launched(s', x) {
      assert t2 in s.threads && x in Vouched(s.threads[t2]);
      assert Launched(s, x);
      VouchedInHand(s.threads[t2]);
      assert Flag(s, x);
    }
    forall x | x in s'.list ensures Launched(s', x) {
      assert Flag(s, x) && Launched(s, x);
    }
  }

  lemma VouchedInHand(pc: Pc)
    ensures Vouched(pc) <= Tokens(pc)
  {
  }

  lemma CreateRefs(s: State, s': State, t: nat, h: nat)
    requires RefInv(s) && PcOf(s, t).Idle? && h !in s.services
    requires s' == With(s, t, h, NewService(), s.list, Init(h))
    ensures RefInv(s')
  {
    assert Holders(s, h) == {};
    forall x | x in s'.services ensures ServiceInv(s', x) {
      HoldersMove(s, s', t, Init(h), x);
      if x != h {
        assert ServiceInv(s, x);
        if Ending(s.services[x]) {
          var t2 :| Deletes(s, t2, x);
          assert Deletes(s', t2, x);
        }
      }
    }
    forall t2, x | Deletes(s', t2, x) ensures Deletes(s, t2, x) {
    }
  }

  lemma StepKeeps(s: State, t: nat, c: Choice)
    requires Inv(s)
    ensures Inv(Step(s, t, c))
  {
    hide Inv;
    if !PcOf(s, t).Idle? {
      MoveKeeps(s, t, c);
    } else if c.Create? && c.h !in s.services {
      CreateKeeps(s, t, c.h);
    } else if (c.Send? || c.Kill?) && c.h in s.services {
      IdleKeeps(s, t, c, c.h);
    } else if c.GlobalPop? && s.list != [] {
      assert Flag(s, s.list[0]) by { QueuedIsFlagged(s); }
      IdleKeeps(s, t, c, s.list[0]);
    }
  }

  lemma QueuedIsFlagged(s: State)
    requires Inv(s)
    ensures forall h | h in s.list :: Flag(s, h)
  {
  }

  /** The invariant holds in every reachable state, for any number of threads and any interleaving. */
  lemma {:induction false} ReachInv(run: seq<(nat, Choice)>)
    ensures Inv(Reach(run))
  {
    if run == [] {
      assert Inv(START);
    } else {
      var n := |run| - 1;
      ReachInv(run[..n]);
      StepKeeps(Reach(run[..n]), run[n].0, run[n].1);
    }
  }

  // ---- What the protocol promises ----

  /** Inside the code of a service: its initialisation, or its message callback. */
  predicate Running(s: State, t: nat, h: nat) {
    var pc := PcOf(s, t);
    (pc.Callback? || pc.Init?) && pc.q == h
  }

  /** No service ever runs on two threads at once, and none is called before it is launched. */
  lemma OneAtATime(run: seq<(nat, Choice)>, t1: nat, t2: nat, h: nat)
    requires Running(Reach(run), t1, h) && Running(Reach(run), t2, h)
    ensures t1 == t2
    ensures PcOf(Reach(run), t1).Callback? ==> h in Reach(run).services && Reach(run).services[h].init
  {
    hide RefInv, LaunchInv, MessageInv, TokenInv, Reach;
    ReachInv(run);
    var s := Reach(run);
    OneHand(s, t1, t2, h);
    CalledIsLaunched(s, t1, h);
  }

  lemma OneHand(s: State, t1: nat, t2: nat, h: nat)
    requires TokenInv(s) && h in Tokens(PcOf(s, t1)) && h in Tokens(PcOf(s, t2))
    ensures t1 == t2
  {
    assert Tokens(Idle) == {};
  }

  lemma CalledIsLaunched(s: State, t: nat, h: nat)
    requires LaunchInv(s)
    ensures PcOf(s, t).Callback? && PcOf(s, t).q == h ==> h in s.services && s.services[h].init
  {
  }

  /**
   * Every mailbox is in at most one place, and one that holds messages is in exactly one: queued
   * once, or in the hand of one thread.
   */
  lemma OneHolder(run: seq<(nat, Choice)>, h: nat)
    ensures var s := Reach(run);
            && (forall i, j | 0 <= i < |s.list| && 0 <= j < |s.list| && s.list[i] == s.list[j] :: i == j)
            && (forall t | h in Tokens(PcOf(s, t)) :: h !in s.list)
            && (forall t1, t2 | h in Tokens(PcOf(s, t1)) && h in Tokens(PcOf(s, t2)) :: t1 == t2)
            && (h in s.services && s.services[h].box.msgs != [] ==>
                  h in s.list || exists t :: h in Tokens(PcOf(s, t)))
  {
    ReachInv(run);
    var s := Reach(run);
    if h in s.services && s.services[h].box.msgs != [] && h !in s.list {
      assert Flag(s, h);
      var t :| t in s.threads && h in Tokens(s.threads[t]);
      assert h in Tokens(PcOf(s, t));
    }
    assert Tokens(Idle) == {};
  }

  /**
   * Messages leave a mailbox in push order, each once, to the dispatcher and after the service has
   * gone to the drop function. A mailbox is freed only when it is released and empty, so then every
   * message has been delivered or dropped.
   */
  lemma MessagesConserved(run: seq<(nat, Choice)>, h: nat)
    requires h in Reach(run).services
    ensures var sv := Reach(run).services[h];
            && sv.pushed == sv.delivered + sv.dropped + sv.box.msgs
            && (sv.dropped != [] ==> sv.box.release)
            && (sv.freed ==> sv.box.release && sv.pushed == sv.delivered + sv.dropped)
  {
    ReachInv(run);
    assert ServiceInv(Reach(run), h);
  }

  /**
   * A context counts its holders: it is deleted when neither the registry nor a thread refers to it,
   * and a thread that uses it still finds it. 'skynet_mq_mark_release' never sees a released mailbox.
   */
  lemma RefsCount(run: seq<(nat, Choice)>, h: nat)
    requires h in Reach(run).services
    ensures var s := Reach(run);
            var sv := s.services[h];
            && sv.ref == One(sv.registered) + |Holders(s, h)|
            && (sv.box.release ==> sv.ref == 0)
            && (forall t | HoldsRef(PcOf(s, t), h) :: sv.ref > 0 && !sv.box.release && !sv.freed)
            && (forall t | Deletes(s, t, h) :: !sv.box.release)
  {
    ReachInv(run);
    var s := Reach(run);
    assert ServiceInv(s, h);
    forall t | HoldsRef(PcOf(s, t), h) ensures s.services[h].ref > 0 {
      assert t in s.threads;
      HolderCounts(s, t, h);
    }
  }

  // ---- Uses behind the last reference ----

  /** The context of 'h' was deleted: its mailbox is marked, its memory is free. */
  predicate Gone(s: State, h: nat) { h in s.services && s.services[h].box.release }

  /**
   * A thread that launched a service gives up its reference, then marks the context as initialised,
   * and when it has queued the mailbox it writes a log line for the context. Whenever it does, the
   * context is gone by then if and only if its handle was retired, no thread holds it, and none is
   * about to delete it.
   */
  lemma LateUse(run: seq<(nat, Choice)>, h: nat)
    requires h in Reach(run).services
    ensures var s := Reach(run);
            Gone(s, h) <==> !s.services[h].registered && Holders(s, h) == {} && forall u :: !Deletes(s, u, h)
  {
    hide Reach;
    ReachInv(run);
    var s := Reach(run);
    assert ServiceInv(s, h);
    assert Holders(s, h) == {} <==> |Holders(s, h)| == 0;
  }

  lemma Next(run: seq<(nat, Choice)>, t: nat, c: Choice)
    ensures Reach(run + [(t, c)]) == Step(Reach(run), t, c)
  {
    assert (run + [(t, c)])[..|run|] == run;
  }

  /** Such a run exists: the service is killed between the two. */
  lemma LateInitRun(h: nat) returns (run: seq<(nat, Choice)>)
    ensures var s := Reach(run); PcOf(s, 1) == SetInit(h) && Gone(s, h)
  {
    hide Reach;
    run := Launched1(h);
    Next(run, 2, Kill(h));
    run := run + [(2, Kill(h))];
    Next(run, 2, GlobalPop);
    run := run + [(2, GlobalPop)];
    Next(run, 2, GlobalPop);
    run := run + [(2, GlobalPop)];
  }

  /** And one where it is killed before the log line. */
  lemma LateLogRun(h: nat) returns (run: seq<(nat, Choice)>)
    ensures var s := Reach(run); PcOf(s, 1) == Idle && Gone(s, h) && s.services[h].init && h in s.list
  {
    hide Reach;
    run := Launched1(h);
    Next(run, 1, Succeed);
    run := run + [(1, Succeed)];
    Next(run, 1, Succeed);
    run := run + [(1, Succeed)];
    Next(run, 2, Kill(h));
    run := run + [(2, Kill(h))];
    Next(run, 2, GlobalPop);
    run := run + [(2, GlobalPop)];
    Next(run, 2, GlobalPop);
    run := run + [(2, GlobalPop)];
  }

  lemma Launched1(h: nat) returns (run: seq<(nat, Choice)>)
    ensures var s := Reach(run);
            && s.threads == map[1 := SetInit(h)] && s.list == []
            && s.services == map[h := NewService().(ref := 1)]
  {
    run := [];
    assert Reach(run) == START;
    hide Reach;
    Next(run, 1, Create(h));
    run := run + [(1, Create(h))];
    Next(run, 1, Succeed);
    run := run + [(1, Succeed)];
    Next(run, 1, Succeed);
    run := run + [(1, Succeed)];
  }
}
