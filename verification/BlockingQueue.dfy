/** The bounded blocking queue as a step system. Every section that runs under
    the queue's one mutex is one step, and so is every read of the terminated
    flag outside it. */
module BlockingQueue {
  import opened Rings

  type Tid = nat

  datatype Status = SUCCESS | EOF | EINTR | EAGAIN | TIMEUP

  /** Where a thread stands in the call it is making. */
  datatype Pc =
    | Idle
    | PushStart(item: Item) | PushEnter(item: Item)
    | PushAsleep(item: Item) | PushWoken(item: Item) | PushStopped(item: Item)
    | TryPushStart(item: Item) | TryPushEnter(item: Item)
    | PopStart(timed: bool) | PopEnter(timed: bool)
    | PopAsleep(timed: bool) | PopWoken | PopTimedOut | PopStopped
    | TryPopStart | TryPopEnter
    | Interrupting(closing: bool) | Closing

  /** `retries` marks a call through the wrapper that starts over on EINTR. */
  datatype Thread = Thread(pc: Pc, call: nat, retries: bool)

  /** What a finished call reported. */
  datatype Report = Pushed(status: Status, item: Item) | Popped(status: Status, item: Item) | Done(closed: bool)

  datatype Entry = Entry(call: nat, item: Item)

  /** The queue, its threads, and the history of the run: which call stored or
      fetched which item, what each call reported, how many calls had started
      when the queue was closed. */
  datatype State = State(ring: Ring, fullWaiters: int, emptyWaiters: int, terminated: bool,
                         threads: Threads, nextCall: nat,
                         stored: seq<Entry>, fetched: seq<Entry>, reports: map<nat, Report>, closedAt: nat)

  // ----- which threads are where

  type Threads = map<Tid, Thread>

  function PoppersAsleep(ts: Threads): set<Tid> { set t | t in ts && ts[t].pc.PopAsleep? }
  function PoppersWoken(ts: Threads): set<Tid> { set t | t in ts && ts[t].pc.PopWoken? }
  function PoppersTimedOut(ts: Threads): set<Tid> { set t | t in ts && ts[t].pc.PopTimedOut? }
  function PushersAsleep(ts: Threads): set<Tid> { set t | t in ts && ts[t].pc.PushAsleep? }
  function PushersWoken(ts: Threads): set<Tid> { set t | t in ts && ts[t].pc.PushWoken? }

  // ----- moving one thread

  function At(s: State, t: Tid, pc: Pc): State
    requires t in s.threads
  {
    s.(threads := s.threads[t := s.threads[t].(pc := pc)])
  }

  function Return(s: State, t: Tid, r: Report): State
    requires t in s.threads
  {
    At(s, t, Idle).(reports := s.reports[s.threads[t].call := r])
  }

  function Wakened(pc: Pc): Pc {
    match pc
    case PushAsleep(x) => PushWoken(x)
    case PopAsleep(_) => PopWoken
    case _ => pc
  }

  /** Signalling wakes one sleeper of the caller's choice of schedule, if there is one. */
  function Signal(s: State, w: Tid): State {
    if w in s.threads then At(s, w, Wakened(s.threads[w].pc)) else s
  }

  function Broadcast(s: State): State {
    s.(threads := map t | t in s.threads :: s.threads[t].(pc := Wakened(s.threads[t].pc)))
  }

  // ----- storing and fetching under the mutex

  function Store(s: State, t: Tid, x: Item, w: Tid): State
    requires t in s.threads && s.ring.next < |s.ring.data|
  {
    var s1 := s.(ring := s.ring.Put(x), stored := s.stored + [Entry(s.threads[t].call, x)]);
    var s2 := Return(s1, t, Pushed(SUCCESS, x));
    if s.emptyWaiters > 0 && w in PoppersAsleep(s2.threads) then Signal(s2, w) else s2
  }

  function Fetch(s: State, t: Tid, w: Tid): State
    requires t in s.threads && s.ring.out < |s.ring.data| && s.ring.nelts > 0
  {
    var x := s.ring.Head();
    var s1 := s.(ring := s.ring.Drop(), fetched := s.fetched + [Entry(s.threads[t].call, x)]);
    var s2 := Return(s1, t, Popped(SUCCESS, x));
    if s.fullWaiters > 0 && w in PushersAsleep(s2.threads) then Signal(s2, w) else s2
  }

  // ----- steps

  datatype Action =
    | Call(t: Tid, pc: Pc, retries: bool)
    | Proceed(t: Tid, w: Tid)
    | Spurious(t: Tid)
    | Timeout(t: Tid)

  predicate Starting(pc: Pc) {
    pc.PushStart? || pc.TryPushStart? || pc.PopStart? || pc.TryPopStart? || pc == Interrupting(false) || pc.Closing?
  }

  /** A call is made by an idle thread; a section runs when its thread is not
      asleep, and a signal it sends reaches a sleeper whenever there is one. */
  ghost predicate Enabled(s: State, a: Action) {
    a.t in s.threads &&
    match a
    case Call(t, pc, _) => s.threads[t].pc.Idle? && Starting(pc)
    case Proceed(t, w) =>
      && !s.threads[t].pc.Idle? && !s.threads[t].pc.PushAsleep? && !s.threads[t].pc.PopAsleep?
      && (s.threads[t].pc.PushEnter? || s.threads[t].pc.TryPushEnter? || s.threads[t].pc.PushWoken? ==>
            PoppersAsleep(s.threads) != {} ==> w in PoppersAsleep(s.threads))
      && (s.threads[t].pc.PopEnter? || s.threads[t].pc.TryPopEnter? || s.threads[t].pc.PopWoken? ==>
            PushersAsleep(s.threads) != {} ==> w in PushersAsleep(s.threads))
    case Spurious(t) => s.threads[t].pc.PushAsleep? || s.threads[t].pc.PopAsleep?
    case Timeout(t) => s.threads[t].pc == PopAsleep(true)
  }

  function Next(s: State, a: Action): State
    requires WellFormed(s, a.t)
  {
    match a
    case Call(t, pc, retries) =>
      s.(threads := s.threads[t := Thread(pc, s.nextCall, retries)], nextCall := s.nextCall + 1)
    case Proceed(t, w) => Section(s, t, w)
    case Spurious(t) => At(s, t, Wakened(s.threads[t].pc))
    case Timeout(t) => At(s, t, PopTimedOut)
  }

  predicate WellFormed(s: State, t: Tid) {
    && t in s.threads && s.ring.nelts <= |s.ring.data|
    && (|s.ring.data| > 0 ==> s.ring.next < |s.ring.data| && s.ring.out < |s.ring.data|)
  }

  function Section(s: State, t: Tid, w: Tid): State
    requires WellFormed(s, t)
  {
    var pc := s.threads[t].pc;
    if pc.PushEnter? || pc.PushWoken? || pc.TryPushEnter? then PushSection(s, t, w)
    else if pc.PopEnter? || pc.PopWoken? || pc.TryPopEnter? then PopSection(s, t, w)
    else if pc.PushStart? || pc.TryPushStart? || pc.PopStart? || pc.TryPopStart? then FirstCheck(s, t)
    else if pc.PushStopped? || pc.PopStopped? || pc.PopTimedOut? then GiveUp(s, t)
    else Control(s, t)
  }

  /** The terminated flag is looked at before the mutex is taken. */
  function FirstCheck(s: State, t: Tid): State
    requires t in s.threads
  {
    match s.threads[t].pc
    case PushStart(x) => if s.terminated then Return(s, t, Pushed(EOF, x)) else At(s, t, PushEnter(x))
    case TryPushStart(x) => if s.terminated then Return(s, t, Pushed(EOF, x)) else At(s, t, TryPushEnter(x))
    case PopStart(timed) => if s.terminated then Return(s, t, Popped(EOF, 0)) else At(s, t, PopEnter(timed))
    case TryPopStart => if s.terminated then Return(s, t, Popped(EOF, 0)) else At(s, t, TryPopEnter)
    case _ => s
  }

  function PushSection(s: State, t: Tid, w: Tid): State
    requires WellFormed(s, t)
  {
    match s.threads[t].pc
    case PushEnter(x) =>
      if !s.ring.Full() then Store(s, t, x, w)
      else if s.terminated then At(s, t, PushStopped(x))
      else At(s, t, PushAsleep(x)).(fullWaiters := s.fullWaiters + 1)
    case PushWoken(x) =>
      var s1 := s.(fullWaiters := s.fullWaiters - 1);
      if s.ring.Full() then At(s1, t, PushStopped(x)) else Store(s1, t, x, w)
    case TryPushEnter(x) => if s.ring.Full() then Return(s, t, Pushed(EAGAIN, x)) else Store(s, t, x, w)
    case _ => s
  }

  function PopSection(s: State, t: Tid, w: Tid): State
    requires WellFormed(s, t)
  {
    match s.threads[t].pc
    case PopEnter(timed) =>
      if !s.ring.Empty() then Fetch(s, t, w)
      else if s.terminated then At(s, t, PopStopped)
      else At(s, t, PopAsleep(timed)).(emptyWaiters := s.emptyWaiters + 1)
    case PopWoken =>
      var s1 := s.(emptyWaiters := s.emptyWaiters - 1);
      if s.ring.Empty() then At(s1, t, PopStopped) else Fetch(s1, t, w)
    case TryPopEnter => if s.ring.Empty() then Return(s, t, Popped(EAGAIN, 0)) else Fetch(s, t, w)
    case _ => s
  }

  /** After the mutex is released the flag decides between EOF and EINTR; a
      waiter whose time is up leaves without looking at the queue. */
  function GiveUp(s: State, t: Tid): State
    requires t in s.threads
  {
    match s.threads[t].pc
    case PushStopped(x) =>
      if s.terminated then Return(s, t, Pushed(EOF, x))
      else if s.threads[t].retries then At(s, t, PushStart(x))
      else Return(s, t, Pushed(EINTR, x))
    case PopStopped => Return(s, t, Popped(if s.terminated then EOF else EINTR, 0))
    case PopTimedOut => Return(s, t, Popped(TIMEUP, 0)).(emptyWaiters := s.emptyWaiters - 1)
    case _ => s
  }

  /** Closing sets the flag in one section and wakes everybody in the next. */
  function Control(s: State, t: Tid): State
    requires t in s.threads
  {
    match s.threads[t].pc
    case Closing =>
      At(s, t, Interrupting(true)).(terminated := true, closedAt := if s.terminated then s.closedAt else s.nextCall)
    case Interrupting(closing) => Return(Broadcast(s), t, Done(closing))
    case _ => s
  }

  /** A run from a fresh queue. */
  ghost predicate Initial(s: State) {
    && s.ring.Valid() && s.ring.nelts == 0
    && s.fullWaiters == 0 && s.emptyWaiters == 0 && !s.terminated && s.closedAt == 0
    && (forall t :: t in s.threads ==> s.threads[t].pc.Idle?)
    && s.nextCall == 0 && s.stored == [] && s.fetched == [] && s.reports == map[]
  }
}
