/** The tables a worker keeps about its connections: the users by descriptor, the registered
    events by descriptor, and the pool of idle user objects. */
module ConnTable {
  import opened Options

  const MAX_POOL_SIZE: nat := 100000
  const INITIAL_POOL_SIZE: nat := 2048

  /** STATUS_NOTSTART, STATUS_OVER_QUIT, or any of the others. */
  datatype Status = NotStart | OverQuit | Other(code: int)

  /** What an entry of the event table calls: the accept handler, the two timers (which share
      the descriptor -1), or the handler of a client. */
  datatype Handler = Accepting | Ticking | Client

  /** How event registration ends: no event object, event_add failed, or registered. */
  datatype Registration = NoEvent | NotAdded | Registered

  datatype Filed = Filed(status: Status, heard: bool)

  ghost function ClientsOf(events: map<int, Handler>): set<int> {
    set fd | fd in events && events[fd] == Client
  }

  /** The client events once a registration for `fd` has ended in one of the three ways. */
  lemma ClientsRegistered(events: map<int, Handler>, fd: int)
    ensures ClientsOf(events[fd := Client]) == ClientsOf(events) + {fd}
    ensures ClientsOf(events - {fd}) == ClientsOf(events) - {fd}
    ensures events[fd := Client] - {fd} == events - {fd}
  {
  }

  class User {
    var fd: int
    var status: Status

    constructor (fd: int)
      ensures this.fd == fd && status == NotStart
    {
      this.fd, status := fd, NotStart;
    }
  }

  /** Filing a connection and taking it back is as if only what was filed there had gone. */
  lemma TakenBack(users: map<int, User>, u: User, watched: set<int>, fd: int)
    ensures users[fd := u] - {fd} == users - {fd}
    ensures (watched + {fd}) - {fd} == watched - {fd} == (watched - {fd}) - {fd}
    ensures (users - {fd}).Keys - (watched - {fd}) == users.Keys - watched - {fd}
  {
  }

  class Worker {
    const listener: nat
    const trimTarget: nat
    const trimIntervalMs: nat
    var users: map<int, User>
    var events: map<int, Handler>
    var pool: seq<User>
    var poolSize: nat
    var lastTrim: Option<int>
    /** The descriptors whose event was registered for the socket accepted last. A client entry
        can be older than that: it stays when no event object can be made for a reused
        descriptor, although the kernel dropped its event with the socket it was for. */
    ghost var watched: set<int>

    /** Descriptors that have a client entry in the event table. */
    ghost function Clients(): set<int>
      reads this
    {
      ClientsOf(events)
    }

    /** Connections whose event could not be registered. */
    ghost function Deaf(): set<int>
      reads this
    {
      users.Keys - watched
    }

    /** What is filed: the status of every connection, and whether its event is registered. */
    ghost function Table(): map<int, Filed>
      reads this, users.Values
    {
      map fd | fd in users :: Filed(users[fd].status, fd in watched)
    }

    /** The users are exactly the descriptors with a client entry and a registered event, but
        for those whose registration failed; each user object carries the descriptor it is
        filed under, and so is filed once; a pooled object carries none, and is pooled once. */
    ghost predicate Valid()
      reads this, users.Values, pool
    {
      && watched <= Clients() <= users.Keys
      && (forall fd :: fd in events ==>
            events[fd] == if fd == listener then Accepting else if fd == -1 then Ticking else Client)
      && listener in events && -1 in events
      && (forall fd :: fd in users ==> fd >= 0 && fd != listener && users[fd].fd == fd)
      && Idle(pool)
      && poolSize == |pool| <= MAX_POOL_SIZE
    }

    static ghost predicate Idle(us: seq<User>)
      reads us
    {
      && (forall i :: 0 <= i < |us| ==> us[i].fd == -1 && us[i].status == NotStart)
      && (forall i, j :: 0 <= i < j < |us| ==> us[i] != us[j])
    }

    ghost function Objects(): set<User>
      reads this
    {
      users.Values + (set u | u in pool)
    }

    constructor (listener: nat, initialSize: nat, trimTarget: nat, trimIntervalMs: nat)
      requires initialSize <= INITIAL_POOL_SIZE
      ensures Valid() && users == map[] && Deaf() == {} && |pool| == initialSize && lastTrim == None
      ensures fresh(Objects())
      ensures this.listener == listener && this.trimTarget == trimTarget && this.trimIntervalMs == trimIntervalMs
    {
      this.listener, this.trimTarget, this.trimIntervalMs := listener, trimTarget, trimIntervalMs;
      users, events, lastTrim := map[], map[listener as int := Accepting, -1 := Ticking], None;
      pool, poolSize, watched := [], 0, {};
      new;
      while poolSize < initialSize
        invariant poolSize == |pool| <= initialSize && Idle(pool)
        invariant users == map[] && lastTrim == None && watched == {}
        invariant events == map[listener as int := Accepting, -1 := Ticking]
        invariant forall u :: u in pool ==> fresh(u)
      {
        var u := new User(-1);
        pool, poolSize := pool + [u], poolSize + 1;
      }
    }

    method Acquire(fd: nat) returns (u: User)
      requires Valid()
      modifies this`pool, this`poolSize, pool
      ensures u.fd == fd && u.status == NotStart
      ensures if old(pool) == [] then fresh(u) && pool == [] else u == old(pool)[0] && pool == old(pool)[1..]
      ensures poolSize == |pool| && Idle(pool) && u !in pool
      ensures forall o <- old(pool) :: o != u ==> unchanged(o)
    {
      if pool != [] {
        u := pool[0];
        pool, poolSize := pool[1..], poolSize - 1;
        u.fd, u.status := fd, NotStart;
      } else {
        u := new User(fd);
      }
    }

    method Release(u: User)
      requires Idle(pool) && poolSize == |pool| <= MAX_POOL_SIZE && u !in pool
      modifies this`pool, this`poolSize, u
      ensures if |old(pool)| < MAX_POOL_SIZE then pool == old(pool) + [u] else pool == old(pool) && unchanged(u)
      ensures Idle(pool) && poolSize == |pool| <= MAX_POOL_SIZE
    {
      if poolSize < MAX_POOL_SIZE {
        u.status, u.fd := NotStart, -1;
        pool, poolSize := pool + [u], poolSize + 1;
      }
    }

    /** Registers an event for a new socket. A failed registration leaves the table as it
        was, or without an entry. */
    method RegisterFdEvent(fd: nat, r: Registration) returns (ok: bool)
      modifies this`events, this`watched
      ensures ok <==> r == Registered
      ensures watched == if ok then old(watched) + {fd as int} else old(watched) - {fd as int}
      ensures events == match r
        case NoEvent => old(events)
        case NotAdded => old(events) - {fd as int}
        case Registered => old(events)[fd as int := Client]
    {
      watched := watched - {fd as int};
      if r == NoEvent {
        return false;
      }
      events := events[fd as int := Client];
      if r == NotAdded {
        events := events - {fd as int};
        return false;
      }
      watched := watched + {fd as int};
      return true;
    }

    method RemoveFdEvent(fd: int)
      modifies this`events, this`watched
      ensures events == if fd < 0 then old(events) else old(events) - {fd}
      ensures watched == if fd < 0 then old(watched) else old(watched) - {fd}
    {
      if fd < 0 {
        return;
      }
      events, watched := events - {fd}, watched - {fd};
    }

    /** The way out when a new connection cannot be set up: `told` if its socket has already
        been found dead. Removed first, released last. */
    method Discard(fd: nat, u: User, told: bool)
      requires Idle(pool) && poolSize == |pool| < MAX_POOL_SIZE && u !in pool
      modifies this`users, this`events, this`watched, this`pool, this`poolSize, u
      ensures users == old(users) - {fd as int} && events == old(events) - {fd as int}
      ensures watched == old(watched) - {fd as int}
      ensures pool == old(pool) + [u] && Idle(pool) && poolSize == |pool|
    {
      if told {
        u.status := OverQuit;
      }
      users := users - {fd as int};
      RemoveFdEvent(fd);
      Release(u);
    }

    /** The connection is filed under its descriptor, replacing what was filed there. */
    method Admit(fd: nat, r: Registration) returns (u: User)
      requires Valid() && fd != listener
      modifies this`users, this`events, this`watched, this`pool, this`poolSize, pool
      ensures Valid() && poolSize < MAX_POOL_SIZE && u !in pool && u.status == NotStart
      ensures if old(pool) == [] then fresh(u) && pool == [] else u == old(pool)[0] && pool == old(pool)[1..]
      ensures users == old(users)[fd as int := u]
      ensures watched == if r == Registered then old(watched) + {fd as int} else old(watched) - {fd as int}
      ensures Deaf() == if r == Registered then old(Deaf()) - {fd as int} else old(Deaf()) + {fd as int}
      ensures forall o <- old(pool) :: o != u ==> unchanged(o)
    {
      ClientsRegistered(events, fd);
      u := Acquire(fd);
      users := users[fd as int := u];
      var _ := RegisterFdEvent(fd, r);
    }

    /** A new connection. The kernel may hand out the descriptor of a dead connection that is
        still filed: its entry and its event are replaced. When the socket cannot be set up
        the connection is taken out again before its object goes back to the pool. */
    method Accept(fd: nat, r: Registration, nonblocking: bool, shown: bool) returns (u: User)
      requires Valid() && fd != listener
      modifies this`users, this`events, this`watched, this`pool, this`poolSize, pool
      ensures Valid()
      ensures if old(pool) == [] then fresh(u) else u == old(pool)[0]
      ensures var rest := if old(pool) == [] then [] else old(pool)[1..];
        if nonblocking && shown then
          && users == old(users)[fd as int := u] && u.status == NotStart && pool == rest
          && Deaf() == (if r == Registered then old(Deaf()) - {fd as int} else old(Deaf()) + {fd as int})
        else users == old(users) - {fd as int} && pool == rest + [u] && Deaf() == old(Deaf()) - {fd as int}
      ensures watched == if nonblocking && shown && r == Registered then old(watched) + {fd as int}
                         else old(watched) - {fd as int}
      ensures forall o <- old(pool) :: o != u ==> unchanged(o)
    {
      u := Admit(fd, r);
      if !nonblocking || !shown {
        ClientsRegistered(events, fd);
        TakenBack(old(users), u, old(watched), fd);
        Discard(fd, u, nonblocking);
      }
    }

    /** A handler of the connection changes its status; OVER_QUIT when its socket is closed. */
    method Handle(fd: int, status: Status) returns (found: bool)
      requires Valid()
      modifies users.Values
      ensures Valid() && (found <==> fd in users)
      ensures forall f :: f in users ==>
        users[f].status == if f == fd then status else old(users[f].status)
    {
      found := fd in users;
      if found {
        users[fd].status := status;
      }
    }

    method FlushAndRelease(u: User, dies: bool) returns (quit: bool)
      requires Idle(pool) && poolSize == |pool| <= MAX_POOL_SIZE && u !in pool
      modifies this`pool, this`poolSize, u
      ensures quit <==> dies || old(u.status) == OverQuit
      ensures pool == old(pool) + if quit && |old(pool)| < MAX_POOL_SIZE then [u] else []
      ensures Idle(pool) && poolSize == |pool| <= MAX_POOL_SIZE
      ensures !quit ==> unchanged(u)
    {
      if dies {
        u.status := OverQuit;
      }
      quit := u.status == OverQuit;
      if quit {
        Release(u);
      }
    }

    static ghost function Room(n: nat, size: nat): nat {
      if size >= MAX_POOL_SIZE then 0 else if n <= MAX_POOL_SIZE - size then n else MAX_POOL_SIZE - size
    }

    /** `freed` lists the objects filed under `gone`, each descriptor once. */
    static ghost predicate Lists(users: map<int, User>, gone: seq<int>, freed: seq<User>) {
      && |freed| == |gone|
      && (forall i :: 0 <= i < |gone| ==> gone[i] in users && users[gone[i]] == freed[i])
      && (forall i, j :: 0 <= i < j < |gone| ==> gone[i] != gone[j])
    }

    /** The first pass of the cleanup timer: pending output is flushed, which ends the
        connections in `dead`, and the objects of ended connections go back to the pool
        while there is room. They stay in `users` until the second pass. */
    method ReleaseQuit(dead: set<int>) returns (gone: seq<int>, ghost freed: seq<User>)
      requires Valid()
      modifies this`pool, this`poolSize, users.Values
      ensures Lists(users, gone, freed)
      ensures forall fd :: fd in gone <==> fd in users && (fd in dead || old(users[fd].status) == OverQuit)
      ensures pool == old(pool) + freed[..Room(|gone|, |old(pool)|)]
      ensures Idle(pool) && poolSize == |pool| <= MAX_POOL_SIZE
      ensures forall fd :: fd in users && fd !in gone ==> unchanged(users[fd])
    {
      assert forall f, g :: f in users && g in users && f != g ==> users[f] != users[g];
      gone, freed := [], [];
      var rest := users.Keys;
      while rest != {}
        invariant rest <= users.Keys && Lists(users, gone, freed)
        invariant forall fd :: fd in gone <==>
          fd in users && fd !in rest && (fd in dead || old(users[fd].status) == OverQuit)
        invariant forall fd :: fd in users && fd !in gone ==> unchanged(users[fd])
        invariant pool == old(pool) + freed[..Room(|gone|, |old(pool)|)]
        invariant Idle(pool) && poolSize == |pool| <= MAX_POOL_SIZE
      {
        var fd :| fd in rest;
        rest := rest - {fd};
        var quit := FlushAndRelease(users[fd], fd in dead);
        if quit {
          gone, freed := gone + [fd], freed + [users[fd]];
        }
      }
    }

    /** The second pass: the ended connections leave both tables. */
    method Forget(gone: seq<int>)
      requires forall fd <- gone :: fd >= 0
      modifies this`users, this`events, this`watched
      ensures users == old(users) - (set fd | fd in gone)
      ensures events == old(events) - (set fd | fd in gone)
      ensures watched == old(watched) - (set fd | fd in gone)
    {
      var i := 0;
      while i < |gone|
        invariant 0 <= i <= |gone|
        invariant users == old(users) - (set fd | fd in gone[..i])
        invariant events == old(events) - (set fd | fd in gone[..i])
        invariant watched == old(watched) - (set fd | fd in gone[..i])
      {
        assert gone[..i + 1] == gone[..i] + [gone[i]] && gone[i] in gone;
        users := users - {gone[i]};
        RemoveFdEvent(gone[i]);
        i := i + 1;
      }
      assert gone[..i] == gone;
    }

    /** Drops the oldest idle objects until `target` are left. */
    method TrimIdleObjects(target: nat) returns (trimmed: nat)
      requires Idle(pool) && poolSize == |pool| <= MAX_POOL_SIZE
      modifies this`pool, this`poolSize
      ensures trimmed == if |old(pool)| <= target then 0 else |old(pool)| - target
      ensures pool == old(pool)[trimmed..] && Idle(pool) && poolSize == |pool|
    {
      var before := poolSize;
      if before <= target {
        return 0;
      }
      var toDrop := before - target;
      while toDrop > 0 && pool != []
        invariant 0 <= toDrop <= before - target
        invariant pool == old(pool)[before - target - toDrop..] && poolSize == |pool| && Idle(pool)
      {
        pool, poolSize := pool[1..], poolSize - 1;
        toDrop := toDrop - 1;
      }
      trimmed := before - poolSize;
    }

    /** At most one trim in trimIntervalMs; none at all when the target is the pool's limit. */
    method MaybeTrim(now: int) returns (trimmed: nat)
      requires Idle(pool) && poolSize == |pool| <= MAX_POOL_SIZE
      modifies this`pool, this`poolSize, this`lastTrim
      ensures var due := trimTarget < MAX_POOL_SIZE
                         && (old(lastTrim) == None || now - old(lastTrim).value >= trimIntervalMs);
        && lastTrim == (if due then Some(now) else old(lastTrim))
        && trimmed == (if due && |old(pool)| > trimTarget then |old(pool)| - trimTarget else 0)
      ensures pool == old(pool)[trimmed..] && Idle(pool) && poolSize == |pool|
    {
      if trimTarget >= MAX_POOL_SIZE {
        return 0;
      }
      if lastTrim.Some? && now - lastTrim.value < trimIntervalMs {
        return 0;
      }
      lastTrim := Some(now);
      if poolSize <= trimTarget {
        return 0;
      }
      trimmed := TrimIdleObjects(trimTarget);
    }

    /** The cleanup timer. Exactly the ended connections leave the tables, each with its
        event; the others keep their object untouched. The objects freed join the pool in
        the order they were met, while there is room, and the trim takes from its front. */
    method CleanUp(dead: set<int>, now: int) returns (gone: seq<int>, ghost freed: seq<User>, trimmed: nat)
      requires Valid()
      modifies this`users, this`events, this`watched, this`pool, this`poolSize, this`lastTrim, users.Values
      ensures Valid()
      ensures Lists(old(users), gone, freed)
      ensures forall fd :: fd in gone <==> fd in old(users) && (fd in dead || old(users[fd].status) == OverQuit)
      ensures users == old(users) - (set fd | fd in gone) && Deaf() == old(Deaf()) - (set fd | fd in gone)
      ensures watched == old(watched) - (set fd | fd in gone)
      ensures forall fd :: fd in users ==> unchanged(users[fd]) && users[fd].status != OverQuit
      ensures var full := old(pool) + freed[..Room(|gone|, |old(pool)|)];
        trimmed <= |full| && pool == full[trimmed..]
      ensures var due := trimTarget < MAX_POOL_SIZE
                         && (old(lastTrim) == None || now - old(lastTrim).value >= trimIntervalMs);
        if due then lastTrim == Some(now) && |pool| <= trimTarget else lastTrim == old(lastTrim) && trimmed == 0
      ensures trimmed > 0 ==> |pool| == trimTarget
    {
      gone, freed := ReleaseQuit(dead);
      ClientsForgotten(events, gone);
      Forget(gone);
      trimmed := MaybeTrim(now);
    }
  }

  lemma ClientsForgotten(events: map<int, Handler>, gone: seq<int>)
    ensures var s := set fd | fd in gone; ClientsOf(events - s) == ClientsOf(events) - s
  {
  }

  // ------------------------------------------------------------------------- runs

  /** The steps of the event loop that touch the tables. */
  datatype Step =
    | Connect(fd: nat, r: Registration, nonblocking: bool, shown: bool)
    | Input(from: int, status: Status)
    | Tick(dead: set<int>, now: int)

  /** What a step makes of the table: a connection that is set up is filed, in place of
      whatever had its descriptor, and one that cannot be set up is not; a handler changes
      the status of its own connection; the timer removes exactly the ended ones. */
  function AfterStep(t: map<int, Filed>, e: Step): map<int, Filed> {
    match e
    case Connect(fd, r, nonblocking, shown) =>
      if nonblocking && shown then t[fd as int := Filed(NotStart, r == Registered)] else t - {fd as int}
    case Input(fd, status) => if fd in t then t[fd := t[fd].(status := status)] else t
    case Tick(dead, _) => map fd | fd in t && fd !in dead && t[fd].status != OverQuit :: t[fd]
  }

  function AfterSteps(t: map<int, Filed>, es: seq<Step>): map<int, Filed> {
    if es == [] then t else AfterStep(AfterSteps(t, es[..|es| - 1]), es[|es| - 1])
  }

  method TakeConnect(w: Worker, fd: nat, r: Registration, nonblocking: bool, shown: bool)
    requires w.Valid() && fd != w.listener
    modifies w, w.Objects()
    ensures w.Valid()
    ensures forall o :: o in w.Objects() ==> o in old(w.Objects()) || fresh(o)
    ensures w.Table() == AfterStep(old(w.Table()), Connect(fd, r, nonblocking, shown))
  {
    ghost var t := AfterStep(w.Table(), Connect(fd, r, nonblocking, shown));
    assert forall f <- w.users :: w.users[f] !in w.pool;
    var u := w.Accept(fd, r, nonblocking, shown);
    forall f: int
      ensures f in w.Table() <==> f in t
      ensures f in t ==> w.Table()[f] == t[f]
    {
    }
  }

  method TakeInput(w: Worker, fd: int, status: Status)
    requires w.Valid()
    modifies w, w.Objects()
    ensures w.Valid()
    ensures forall o :: o in w.Objects() ==> o in old(w.Objects()) || fresh(o)
    ensures w.Table() == AfterStep(old(w.Table()), Input(fd, status))
  {
    ghost var t := AfterStep(w.Table(), Input(fd, status));
    var _ := w.Handle(fd, status);
    forall f: int
      ensures f in w.Table() <==> f in t
      ensures f in t ==> w.Table()[f] == t[f]
    {
    }
  }

  method TakeTick(w: Worker, dead: set<int>, now: int)
    requires w.Valid()
    modifies w, w.Objects()
    ensures w.Valid()
    ensures forall o :: o in w.Objects() ==> o in old(w.Objects()) || fresh(o)
    ensures w.Table() == AfterStep(old(w.Table()), Tick(dead, now))
  {
    ghost var t := AfterStep(w.Table(), Tick(dead, now));
    var gone, _, _ := w.CleanUp(dead, now);
    forall f: int
      ensures f in w.Table() <==> f in t
      ensures f in t ==> w.Table()[f] == t[f]
    {
      assert f in gone <==> f in old(w.users) && (f in dead || old(w.users[f].status) == OverQuit);
    }
  }

  method TakeStep(w: Worker, e: Step)
    requires w.Valid() && (e.Connect? ==> e.fd != w.listener)
    modifies w, w.Objects()
    ensures w.Valid()
    ensures forall o :: o in w.Objects() ==> o in old(w.Objects()) || fresh(o)
    ensures w.Table() == AfterStep(old(w.Table()), e)
  {
    match e
    case Connect(fd, r, nonblocking, shown) => TakeConnect(w, fd, r, nonblocking, shown);
    case Input(fd, status) => TakeInput(w, fd, status);
    case Tick(dead, now) => TakeTick(w, dead, now);
  }

  lemma HeardOrDeaf(w: Worker)
    requires w.Valid()
    ensures w.Deaf() == {} <==> forall fd <- w.Table() :: w.Table()[fd].heard
    ensures w.Deaf() == {} ==> w.users.Keys == w.Clients()
  {
    assert forall fd :: fd in w.users.Keys ==> fd in w.watched || fd in w.Deaf();
    var t := w.Table();
    forall fd <- t
      ensures t[fd].heard <==> fd !in w.Deaf()
    {
    }
    if forall fd <- t :: t[fd].heard {
      forall fd: int
        ensures fd !in w.Deaf()
      {
        if fd in w.users.Keys { assert fd in t; }
      }
      assert w.Deaf() == {};
    }
  }

  /** Over any run of the loop, descriptors reused or not, the tables stay in step, and what
      is filed is exactly what the steps say. */
  method RunLoop(w: Worker, steps: seq<Step>)
    requires w.Valid()
    requires forall e <- steps :: e.Connect? ==> e.fd != w.listener
    modifies w, w.Objects()
    ensures w.Valid()
    ensures w.Table() == AfterSteps(old(w.Table()), steps)
    ensures (forall e <- steps :: e.Connect? ==> e.r == Registered) && old(w.Deaf()) == {} ==>
              w.Deaf() == {} && w.users.Keys == w.Clients()
    ensures forall f, g :: f in w.users && g in w.users && f != g ==> w.users[f] != w.users[g]
    ensures forall f :: f in w.users ==> w.users[f] !in w.pool
  {
    HeardOrDeaf(w);
    var i := 0;
    while i < |steps|
      invariant 0 <= i <= |steps| && w.Valid()
      invariant forall o :: o in w.Objects() ==> o in old(w.Objects()) || fresh(o)
      invariant w.Table() == AfterSteps(old(w.Table()), steps[..i])
    {
      assert steps[i] in steps && steps[..i + 1][..i] == steps[..i];
      TakeStep(w, steps[i]);
      i := i + 1;
    }
    assert steps[..i] == steps;
    if (forall e <- steps :: e.Connect? ==> e.r == Registered) && old(w.Deaf()) == {} {
      AllHeard(old(w.Table()), steps);
    }
    HeardOrDeaf(w);
  }

  /** While every registration succeeds no connection is left without its event. */
  lemma {:induction false} AllHeard(t: map<int, Filed>, es: seq<Step>)
    requires forall e <- es :: e.Connect? ==> e.r == Registered
    requires forall fd <- t :: t[fd].heard
    ensures forall fd <- AfterSteps(t, es) :: AfterSteps(t, es)[fd].heard
  {
    if es != [] {
      AllHeard(t, es[..|es| - 1]);
      assert es[|es| - 1] in es;
    }
  }

  /** The steps that can end a connection or take its descriptor. */
  predicate Spares(e: Step, fd: int) {
    match e
    case Connect(f, _, _, _) => f != fd
    case Input(f, status) => f == fd ==> status != OverQuit
    case Tick(dead, _) => fd !in dead
  }

  /** A connection stays filed, and keeps its event, until it ends or its descriptor goes to
      a new socket. */
  lemma {:induction false} StaysFiled(t: map<int, Filed>, es: seq<Step>, fd: int)
    requires fd in t && t[fd].status != OverQuit && forall e <- es :: Spares(e, fd)
    ensures var u := AfterSteps(t, es);
            fd in u && u[fd].status != OverQuit && u[fd].heard == t[fd].heard
  {
    if es != [] {
      StaysFiled(t, es[..|es| - 1], fd);
      assert es[|es| - 1] in es;
    }
  }

  /** Nothing is filed that was not set up in the run or filed before it. */
  lemma {:induction false} OnlyConnectedAreFiled(t: map<int, Filed>, es: seq<Step>, fd: int)
    requires fd in AfterSteps(t, es) && fd !in t
    ensures exists e <- es :: e.Connect? && e.fd == fd && e.nonblocking && e.shown
  {
    if es != [] {
      var e := es[|es| - 1];
      assert e in es;
      if fd in AfterSteps(t, es[..|es| - 1]) {
        OnlyConnectedAreFiled(t, es[..|es| - 1], fd);
      } else {
        assert e.Connect? && e.fd == fd;
      }
    }
  }

  /** The timer leaves no ended connection behind, and takes no other. */
  lemma TickTakesEnded(t: map<int, Filed>, dead: set<int>, now: int, fd: int)
    ensures fd in AfterStep(t, Tick(dead, now)) <==> fd in t && fd !in dead && t[fd].status != OverQuit
    ensures fd in AfterStep(t, Tick(dead, now)) ==> AfterStep(t, Tick(dead, now))[fd] == t[fd]
  {
  }
}
