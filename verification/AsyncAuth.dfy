/** Password checks off the event loop: the single writer thread, the bounded queue of the
    hash workers, and the way back to the loop, as a state machine over their atomic steps. */
module AsyncAuth {

  type Op = nat
  type Conn = nat

  datatype Kind = Login | Change
  datatype Result = Ok | BadCredentials | Busy | Error
  datatype Job = Lookup(op: Op) | Store(op: Op) | OtherWrite
  datatype Posted = Posted(op: Op, result: Result)

  /** The outcomes of the calls the model cannot see into. */
  datatype Found = Account | NoAccount | LookupFailed
  datatype Verdict = Match(rehash: bool, hashed: bool) | Mismatch | VerifyFailed

  datatype Status = Idle | Verifying | Quit

  /** Operations are numbered as they are submitted; `kinds` and `owner` describe them, and
      `known`, `verified`, `matched`, `saved` record which had an account, ran a verification,
      passed it, and had a new credential written. `current` is the latest operation of a
      connection. `threads` is 0 when the pool is off and hash tasks run on the writer thread
      itself. */
  datatype State = State(
    writeQ: seq<Job>, writer: seq<Job>, hashQ: seq<Op>, hashing: seq<Op>,
    posted: seq<Posted>, delivered: seq<Posted>,
    kinds: seq<Kind>, owner: seq<Conn>, status: map<Conn, Status>, current: map<Conn, Op>,
    known: set<Op>, verified: set<Op>, matched: set<Op>, saved: set<Op>, limit: nat, threads: nat)

  datatype Step =
    | Submit(conn: Conn, kind: Kind)
    | WriteOther
    | Disconnect(conn: Conn)
    | WriterTake
    | WriterRun(found: Found, verdict: Verdict, stored: bool)
    | WorkerTake
    | WorkerRun(worker: nat, verdict: Verdict)
    | Deliver

  function StatusOf(s: State, c: Conn): Status { if c in s.status then s.status[c] else Idle }

  predicate Enabled(s: State, e: Step) {
    match e
    case Submit(c, _) => StatusOf(s, c) == Idle
    case WriteOther => true
    case Disconnect(_) => true
    case WriterTake => s.writer == [] && s.writeQ != []
    case WriterRun(_, _, _) => s.writer != []
    case WorkerTake => |s.hashing| < s.threads && s.hashQ != []
    case WorkerRun(w, _) => w < |s.hashing|
    case Deliver => s.posted != []
  }

  function Post(s: State, op: Op, r: Result): State { s.(posted := s.posted + [Posted(op, r)]) }

  /** What a hash task does once it has verified: answer, or queue the new credential. For a
      login of an unknown account the verification is a dummy one. */
  datatype Reaction = Reply(result: Result) | Rewrite

  function React(kind: Kind, known: bool, v: Verdict): Reaction {
    if kind == Login then
      if !known || !v.Match? then Reply(BadCredentials)
      else if v.rehash && v.hashed then Rewrite
      else Reply(Ok)
    else
      match v
      case VerifyFailed => Reply(Error)
      case Mismatch => Reply(BadCredentials)
      case Match(_, hashed) => if hashed then Rewrite else Reply(Error)
  }

  predicate Passes(kind: Kind, known: bool, v: Verdict) { v.Match? && (kind == Login ==> known) }

  function Marked(s: State, op: Op, passed: bool): State {
    s.(verified := s.verified + {op}, matched := if passed then s.matched + {op} else s.matched)
  }

  function Verify(s: State, op: Op, v: Verdict): State
    requires op < |s.kinds|
  {
    var t := Marked(s, op, Passes(s.kinds[op], op in s.known, v));
    match React(s.kinds[op], op in s.known, v)
    case Rewrite => t.(writeQ := t.writeQ + [Store(op)])
    case Reply(r) => Post(t, op, r)
  }

  /** Queue a hash task, refuse it when the queue is full, or run it here when there is no pool. */
  function RunHashTask(s: State, op: Op, v: Verdict): State
    requires op < |s.kinds|
  {
    if s.threads == 0 then Verify(s, op, v)
    else if |s.hashQ| >= s.limit then Post(s, op, Busy)
    else s.(hashQ := s.hashQ + [op])
  }

  function Written(s: State, op: Op, stored: bool): State {
    if stored then s.(saved := s.saved + {op}) else s
  }

  function RunJob(s: State, j: Job, found: Found, v: Verdict, stored: bool): State
    requires j.OtherWrite? || j.op < |s.kinds|
  {
    match j
    case OtherWrite => s
    case Lookup(op) =>
      if found == LookupFailed then Post(s, op, if s.kinds[op] == Login then BadCredentials else Error)
      else if found == NoAccount && s.kinds[op] == Change then Post(s, op, BadCredentials)
      else RunHashTask(if found == Account then s.(known := s.known + {op}) else s, op, v)
    case Store(op) => Post(Written(s, op, stored), op, if s.kinds[op] == Login || stored then Ok else Error)
  }

  function Without(q: seq<Op>, w: nat): (r: seq<Op>)
    requires w < |q|
    ensures |r| == |q| - 1 && forall op :: op in r ==> op in q
  {
    q[..w] + q[w + 1..]
  }

  function Next(s: State, e: Step): State
    requires Inv(s) && Enabled(s, e)
  {
    match e
    case Submit(c, k) =>
      var op := |s.kinds|;
      s.(kinds := s.kinds + [k], owner := s.owner + [c], writeQ := s.writeQ + [Lookup(op)],
         status := s.status[c := Verifying], current := s.current[c := op])
    case WriteOther => s.(writeQ := s.writeQ + [OtherWrite])
    case Disconnect(c) => s.(status := s.status[c := Quit])
    case WriterTake => s.(writer := [s.writeQ[0]], writeQ := s.writeQ[1..])
    case WriterRun(f, v, stored) =>
      JobIsKnown(s);
      RunJob(s.(writer := []), s.writer[0], f, v, stored)
    case WorkerTake => s.(hashing := s.hashing + [s.hashQ[0]], hashQ := s.hashQ[1..])
    case WorkerRun(w, v) =>
      HashingIsKnown(s, w);
      Verify(s.(hashing := Without(s.hashing, w)), s.hashing[w], v)
    case Deliver =>
      var p := s.posted[0];
      PostedIsKnown(s);
      var c := s.owner[p.op];
      s.(posted := s.posted[1..], delivered := s.delivered + [p],
         status := if StatusOf(s, c) == Verifying then s.status[c := Idle] else s.status)
  }

  // ------------------------------------------------------------------------ invariant

  function JobCount(js: seq<Job>, op: Op): nat {
    if js == [] then 0 else (if !js[0].OtherWrite? && js[0].op == op then 1 else 0) + JobCount(js[1..], op)
  }

  function PostedCount(ps: seq<Posted>, op: Op): nat {
    if ps == [] then 0 else (if ps[0].op == op then 1 else 0) + PostedCount(ps[1..], op)
  }

  function OpCount(q: seq<Op>, op: Op): nat {
    if q == [] then 0 else (if q[0] == op then 1 else 0) + OpCount(q[1..], op)
  }

  /** How many times an operation occurs in all the places it can be in. */
  function Places(s: State, op: Op): nat {
    JobCount(s.writeQ, op) + JobCount(s.writer, op) + OpCount(s.hashQ, op) + OpCount(s.hashing, op)
    + PostedCount(s.posted, op) + PostedCount(s.delivered, op)
  }

  predicate Fresh(s: State, op: Op) { op !in s.verified && op !in s.matched }

  predicate JobOk(s: State, j: Job) {
    (j.Lookup? ==> Fresh(s, j.op)) && (j.Store? ==> j.op in s.matched && j.op !in s.saved)
  }

  /** Busy means nothing was verified. A login is answered Ok exactly when its verification
      passed, a password change exactly when its new credential has been written; neither is
      told of bad credentials after it passed. */
  predicate AnswerOk(s: State, p: Posted) {
    && p.op < |s.kinds|
    && (p.result == Busy ==> p.op !in s.verified)
    && (p.result == BadCredentials ==> p.op !in s.matched)
    && (if s.kinds[p.op] == Login then p.result != Error && (p.result == Ok <==> p.op in s.matched)
        else p.result == Ok <==> p.op in s.saved)
  }

  predicate Undelivered(s: State, op: Op) { op < |s.owner| && PostedCount(s.delivered, op) == 0 }

  predicate Bounded(s: State) {
    |s.kinds| == |s.owner| && |s.writer| <= 1 && |s.hashQ| <= s.limit && |s.hashing| <= s.threads
    && (s.threads == 0 ==> s.hashQ == [])
  }

  /** Every operation submitted so far is in exactly one place, once. */
  ghost predicate Placed(s: State) {
    forall op: Op :: Places(s, op) == if op < |s.kinds| then 1 else 0
  }

  /** Only operations that passed a verification are stored or answered Ok, none is verified
      twice, and none that was verified is answered Busy. */
  predicate Checked(s: State) {
    && s.saved <= s.matched <= s.verified && (forall op :: op in s.verified ==> op < |s.kinds|)
    && (forall j :: j in s.writeQ ==> JobOk(s, j)) && (forall j :: j in s.writer ==> JobOk(s, j))
    && (forall op :: op in s.hashQ ==> Fresh(s, op)) && (forall op :: op in s.hashing ==> Fresh(s, op))
    && (forall p :: p in s.posted ==> AnswerOk(s, p)) && (forall p :: p in s.delivered ==> AnswerOk(s, p))
  }

  predicate Current(s: State, c: Conn) {
    c in s.current && Undelivered(s, s.current[c]) && s.owner[s.current[c]] == c
  }

  /** A connection that waits has its current operation outstanding, and an outstanding
      operation is the current one of a connection that has not gone back to idle. */
  ghost predicate Waits(s: State) {
    && (forall c :: StatusOf(s, c) == Verifying ==> Current(s, c))
    && (forall op: Op :: Undelivered(s, op) ==>
          StatusOf(s, s.owner[op]) != Idle && s.owner[op] in s.current && s.current[s.owner[op]] == op)
  }

  ghost predicate Inv(s: State) { Bounded(s) && Placed(s) && Checked(s) && Waits(s) }

  lemma {:induction false} JobCounted(js: seq<Job>, j: Job)
    requires j in js && !j.OtherWrite?
    ensures JobCount(js, j.op) >= 1
  {
    if js[0] != j { JobCounted(js[1..], j); }
  }

  lemma {:induction false} PostedCounted(ps: seq<Posted>, p: Posted)
    requires p in ps
    ensures PostedCount(ps, p.op) >= 1
  {
    if ps[0] != p { PostedCounted(ps[1..], p); }
  }

  lemma {:induction false} OpCounted(q: seq<Op>, op: Op)
    ensures OpCount(q, op) >= 1 <==> op in q
  {
    if q != [] { OpCounted(q[1..], op); }
  }

  lemma JobIsKnown(s: State)
    requires Inv(s) && s.writer != []
    ensures s.writer[0].OtherWrite? || s.writer[0].op < |s.kinds|
  {
    if !s.writer[0].OtherWrite? {
      JobCounted(s.writer, s.writer[0]);
      assert Places(s, s.writer[0].op) >= 1;
    }
  }

  lemma HashingIsKnown(s: State, w: nat)
    requires Inv(s) && w < |s.hashing|
    ensures s.hashing[w] < |s.kinds|
  {
    OpCounted(s.hashing, s.hashing[w]);
    assert Places(s, s.hashing[w]) >= 1;
  }

  lemma PostedIsKnown(s: State)
    requires Inv(s) && s.posted != []
    ensures s.posted[0].op < |s.kinds|
  {
    PostedCounted(s.posted, s.posted[0]);
    assert Places(s, s.posted[0].op) >= 1;
  }

  // ------------------------------------------------------------------- the places

  function One(a: Op, b: Op): nat { if a == b then 1 else 0 }

  function JobOne(j: Job, op: Op): nat { if j.OtherWrite? then 0 else One(j.op, op) }

  lemma {:induction false} JobAppend(js: seq<Job>, j: Job, op: Op)
    ensures JobCount(js + [j], op) == JobCount(js, op) + JobOne(j, op)
  {
    if js == [] {
      assert js + [j] == [j];
    } else {
      JobAppend(js[1..], j, op);
      assert (js + [j])[1..] == js[1..] + [j];
    }
  }

  lemma {:induction false} PostedAppend(ps: seq<Posted>, p: Posted, op: Op)
    ensures PostedCount(ps + [p], op) == PostedCount(ps, op) + One(p.op, op)
  {
    if ps == [] {
      assert ps + [p] == [p];
    } else {
      PostedAppend(ps[1..], p, op);
      assert (ps + [p])[1..] == ps[1..] + [p];
    }
  }

  lemma {:induction false} OpAppend(q: seq<Op>, r: seq<Op>, op: Op)
    ensures OpCount(q + r, op) == OpCount(q, op) + OpCount(r, op)
  {
    if q == [] {
      assert q + r == r;
    } else {
      OpAppend(q[1..], r, op);
      assert (q + r)[1..] == q[1..] + r;
    }
  }

  lemma OpRemove(q: seq<Op>, w: nat, op: Op)
    requires w < |q|
    ensures OpCount(Without(q, w), op) + One(q[w], op) == OpCount(q, op)
  {
    assert q == q[..w] + q[w..] && q[w..][1..] == q[w + 1..];
    OpAppend(q[..w], q[w..], op);
    OpAppend(q[..w], q[w + 1..], op);
  }

  lemma PostAdds(s: State, a: Op, r: Result, op: Op)
    ensures Places(Post(s, a, r), op) == Places(s, op) + One(a, op)
  {
    PostedAppend(s.posted, Posted(a, r), op);
  }

  lemma VerifyAdds(s: State, a: Op, v: Verdict, op: Op)
    requires a < |s.kinds|
    ensures Places(Verify(s, a, v), op) == Places(s, op) + One(a, op)
  {
    var t := Marked(s, a, Passes(s.kinds[a], a in s.known, v));
    assert Places(t, op) == Places(s, op);
    match React(s.kinds[a], a in s.known, v)
    case Rewrite => JobAppend(t.writeQ, Store(a), op);
    case Reply(r) => PostAdds(t, a, r, op);
  }

  lemma HashTaskAdds(s: State, a: Op, v: Verdict, op: Op)
    requires a < |s.kinds|
    ensures Places(RunHashTask(s, a, v), op) == Places(s, op) + One(a, op)
  {
    if s.threads == 0 {
      VerifyAdds(s, a, v, op);
    } else if |s.hashQ| >= s.limit {
      PostAdds(s, a, Busy, op);
    } else {
      OpAppend(s.hashQ, [a], op);
    }
  }

  lemma RunJobAdds(s: State, j: Job, f: Found, v: Verdict, stored: bool, op: Op)
    requires j.OtherWrite? || j.op < |s.kinds|
    ensures Places(RunJob(s, j, f, v, stored), op) == Places(s, op) + JobOne(j, op)
  {
    match j
    case OtherWrite =>
    case Store(a) => PostAdds(Written(s, a, stored), a, if s.kinds[a] == Login || stored then Ok else Error, op);
    case Lookup(a) =>
      if f == LookupFailed {
        PostAdds(s, a, if s.kinds[a] == Login then BadCredentials else Error, op);
      } else if f == NoAccount && s.kinds[a] == Change {
        PostAdds(s, a, BadCredentials, op);
      } else {
        HashTaskAdds(if f == Account then s.(known := s.known + {a}) else s, a, v, op);
      }
  }

  lemma WriterRunPlaces(s: State, f: Found, v: Verdict, stored: bool, op: Op)
    requires Inv(s) && s.writer != []
    ensures Places(Next(s, WriterRun(f, v, stored)), op) == Places(s, op)
  {
    JobIsKnown(s);
    assert s.writer[1..] == [] && JobCount(s.writer, op) == JobOne(s.writer[0], op);
    RunJobAdds(s.(writer := []), s.writer[0], f, v, stored, op);
  }

  lemma WorkerRunPlaces(s: State, w: nat, v: Verdict, op: Op)
    requires Inv(s) && w < |s.hashing|
    ensures Places(Next(s, WorkerRun(w, v)), op) == Places(s, op)
  {
    HashingIsKnown(s, w);
    OpRemove(s.hashing, w, op);
    VerifyAdds(s.(hashing := Without(s.hashing, w)), s.hashing[w], v, op);
  }

  /** No step loses or duplicates an operation; only Submit adds one. */
  lemma StepKeepsPlaces(s: State, e: Step, op: Op)
    requires Inv(s) && Enabled(s, e)
    ensures Places(Next(s, e), op) == Places(s, op) + if e.Submit? then One(|s.kinds|, op) else 0
  {
    match e
    case Submit(c, k) => JobAppend(s.writeQ, Lookup(|s.kinds|), op);
    case WriteOther => JobAppend(s.writeQ, OtherWrite, op);
    case Disconnect(c) =>
    case WriterTake => assert JobCount([s.writeQ[0]], op) == JobOne(s.writeQ[0], op);
    case WriterRun(f, v, stored) => WriterRunPlaces(s, f, v, stored, op);
    case WorkerTake => OpAppend(s.hashing, [s.hashQ[0]], op);
    case WorkerRun(w, v) => WorkerRunPlaces(s, w, v, op);
    case Deliver => PostedAppend(s.delivered, s.posted[0], op);
  }

  // ---------------------------------------------------------- what has been verified

  /** An operation that is in no place can be marked verified: no one else depends on it. */
  lemma MarkKeepsChecked(s: State, op: Op, passed: bool)
    requires op < |s.kinds| && Checked(s) && Places(s, op) == 0
    ensures Checked(Marked(s, op, passed))
  {
    forall j | j in s.writeQ ensures JobOk(Marked(s, op, passed), j) {
      if !j.OtherWrite? { JobCounted(s.writeQ, j); }
    }
    forall j | j in s.writer ensures JobOk(Marked(s, op, passed), j) {
      if !j.OtherWrite? { JobCounted(s.writer, j); }
    }
    OpCounted(s.hashQ, op);
    OpCounted(s.hashing, op);
    forall p | p in s.posted ensures AnswerOk(Marked(s, op, passed), p) { PostedCounted(s.posted, p); }
    forall p | p in s.delivered ensures AnswerOk(Marked(s, op, passed), p) { PostedCounted(s.delivered, p); }
  }

  lemma PostKeepsChecked(s: State, op: Op, r: Result)
    requires Checked(s) && AnswerOk(s, Posted(op, r))
    ensures Checked(Post(s, op, r))
  {
    var t := Post(s, op, r);
    forall p | p in t.posted ensures AnswerOk(t, p) {
      assert p in s.posted || p == Posted(op, r);
    }
  }

  lemma VerifyKeepsChecked(s: State, op: Op, v: Verdict)
    requires op < |s.kinds| && Checked(s) && Places(s, op) == 0 && Fresh(s, op)
    ensures Checked(Verify(s, op, v))
  {
    var t := Marked(s, op, Passes(s.kinds[op], op in s.known, v));
    MarkKeepsChecked(s, op, Passes(s.kinds[op], op in s.known, v));
    match React(s.kinds[op], op in s.known, v)
    case Rewrite =>
      var u := t.(writeQ := t.writeQ + [Store(op)]);
      forall j | j in u.writeQ ensures JobOk(u, j) {
        assert j in t.writeQ || j == Store(op);
      }
    case Reply(r) => PostKeepsChecked(t, op, r);
  }

  lemma HashTaskKeepsChecked(s: State, op: Op, v: Verdict)
    requires op < |s.kinds| && Checked(s) && Places(s, op) == 0 && Fresh(s, op)
    ensures Checked(RunHashTask(s, op, v))
  {
    if s.threads == 0 {
      VerifyKeepsChecked(s, op, v);
    } else if |s.hashQ| >= s.limit {
      PostKeepsChecked(s, op, Busy);
    } else {
      var t := s.(hashQ := s.hashQ + [op]);
      forall o | o in t.hashQ ensures Fresh(t, o) {
        assert o in s.hashQ || o == op;
      }
    }
  }

  lemma RunJobKeepsChecked(s: State, j: Job, f: Found, v: Verdict, stored: bool)
    requires j.OtherWrite? || (j.op < |s.kinds| && Places(s, j.op) == 0)
    requires Checked(s) && JobOk(s, j)
    ensures Checked(RunJob(s, j, f, v, stored))
  {
    match j
    case OtherWrite =>
    case Store(op) =>
      WrittenKeepsChecked(s, op, stored);
      PostKeepsChecked(Written(s, op, stored), op, if s.kinds[op] == Login || stored then Ok else Error);
    case Lookup(op) =>
      if f == LookupFailed {
        PostKeepsChecked(s, op, if s.kinds[op] == Login then BadCredentials else Error);
      } else if f == NoAccount && s.kinds[op] == Change {
        PostKeepsChecked(s, op, BadCredentials);
      } else {
        var k := if f == Account then s.(known := s.known + {op}) else s;
        KnownKeepsChecked(s, k);
        assert Places(k, op) == Places(s, op);
        HashTaskKeepsChecked(k, op, v);
      }
  }

  lemma WrittenKeepsChecked(s: State, op: Op, stored: bool)
    requires Checked(s) && Places(s, op) == 0 && op in s.matched
    ensures Checked(Written(s, op, stored))
  {
    var t := Written(s, op, stored);
    forall j | j in s.writeQ ensures JobOk(t, j) { if !j.OtherWrite? { JobCounted(s.writeQ, j); } }
    forall j | j in s.writer ensures JobOk(t, j) { if !j.OtherWrite? { JobCounted(s.writer, j); } }
    forall p | p in s.posted ensures AnswerOk(t, p) { PostedCounted(s.posted, p); }
    forall p | p in s.delivered ensures AnswerOk(t, p) { PostedCounted(s.delivered, p); }
  }

  lemma KnownKeepsChecked(s: State, k: State)
    requires Checked(s) && k == s.(known := k.known)
    ensures Checked(k)
  {
    forall j ensures JobOk(s, j) == JobOk(k, j) {}
    forall p ensures AnswerOk(s, p) == AnswerOk(k, p) {}
    forall op: Op ensures Fresh(s, op) == Fresh(k, op) {}
  }

  lemma WriterRunKeepsChecked(s: State, f: Found, v: Verdict, stored: bool)
    requires Inv(s) && s.writer != []
    ensures Checked(Next(s, WriterRun(f, v, stored)))
  {
    JobIsKnown(s);
    var j, t := s.writer[0], s.(writer := []);
    assert JobOk(s, j);
    if !j.OtherWrite? {
      assert s.writer[1..] == [] && JobCount(s.writer, j.op) == 1 && Places(s, j.op) == 1;
      assert Places(t, j.op) == 0;
    }
    RunJobKeepsChecked(t, j, f, v, stored);
  }

  lemma WorkerRunKeepsChecked(s: State, w: nat, v: Verdict)
    requires Inv(s) && w < |s.hashing|
    ensures Checked(Next(s, WorkerRun(w, v)))
  {
    HashingIsKnown(s, w);
    var t := s.(hashing := Without(s.hashing, w));
    OpRemove(s.hashing, w, s.hashing[w]);
    assert Places(s, s.hashing[w]) == 1 && Places(t, s.hashing[w]) == 0;
    assert s.hashing[w] in s.hashing && Fresh(s, s.hashing[w]);
    forall o | o in t.hashing ensures Fresh(t, o) {
      assert o in s.hashing && Fresh(s, o);
    }
    VerifyKeepsChecked(t, s.hashing[w], v);
  }

  lemma StepKeepsChecked(s: State, e: Step)
    requires Inv(s) && Enabled(s, e)
    ensures Checked(Next(s, e))
  {
    var t := Next(s, e);
    match e
    case Submit(c, k) => SubmitKeepsChecked(s, c, k);
    case WriteOther =>
      forall j | j in t.writeQ ensures JobOk(t, j) {
        assert j in s.writeQ || j == OtherWrite;
      }
    case Disconnect(c) =>
    case WriterTake =>
      forall j | j in t.writeQ || j in t.writer ensures JobOk(t, j) {
        assert j in s.writeQ && JobOk(s, j);
      }
    case WriterRun(f, v, stored) => WriterRunKeepsChecked(s, f, v, stored);
    case WorkerTake =>
      forall o | o in t.hashing || o in t.hashQ ensures Fresh(t, o) {
        assert (o in s.hashing || o in s.hashQ) && Fresh(s, o);
      }
    case WorkerRun(w, v) => WorkerRunKeepsChecked(s, w, v);
    case Deliver =>
      forall p | p in t.delivered || p in t.posted ensures AnswerOk(t, p) {
        assert (p in s.delivered || p in s.posted) && AnswerOk(s, p);
      }
  }

  lemma SubmitKeepsChecked(s: State, c: Conn, k: Kind)
    requires Inv(s) && StatusOf(s, c) == Idle
    ensures Checked(Next(s, Submit(c, k)))
  {
    var t, op := Next(s, Submit(c, k)), |s.kinds|;
    assert op !in s.verified;
    forall j | j in t.writeQ ensures JobOk(t, j) {
      assert j in s.writeQ || j == Lookup(op);
    }
    forall p | p in s.posted ensures AnswerOk(t, p) { assert AnswerOk(s, p); }
    forall p | p in s.delivered ensures AnswerOk(t, p) { assert AnswerOk(s, p); }
  }

  // ------------------------------------------------------------------ who is waiting

  /** Only submissions, disconnections and deliveries concern the connections. */
  predicate SameConnections(s: State, t: State) {
    s.owner == t.owner && s.status == t.status && s.current == t.current && s.delivered == t.delivered
  }

  lemma VerifyFrame(s: State, op: Op, v: Verdict)
    requires op < |s.kinds|
    ensures var t := Verify(s, op, v);
      SameConnections(s, t) && t.kinds == s.kinds && t.limit == s.limit && t.threads == s.threads
      && t.writer == s.writer && t.hashQ == s.hashQ && t.hashing == s.hashing
  {
    match React(s.kinds[op], op in s.known, v)
    case Rewrite =>
    case Reply(r) =>
  }

  lemma RunJobFrame(s: State, j: Job, f: Found, v: Verdict, stored: bool)
    requires j.OtherWrite? || j.op < |s.kinds|
    requires |s.hashQ| <= s.limit && (s.threads == 0 ==> s.hashQ == [])
    ensures var t := RunJob(s, j, f, v, stored);
      SameConnections(s, t) && t.kinds == s.kinds && t.limit == s.limit && t.threads == s.threads
      && t.writer == s.writer && |t.hashQ| <= s.limit && t.hashing == s.hashing && (t.threads == 0 ==> t.hashQ == [])
  {
    if j.Lookup? {
      VerifyFrame(if f == Account then s.(known := s.known + {j.op}) else s, j.op, v);
    }
  }

  lemma OthersKeepConnections(s: State, e: Step)
    requires Inv(s) && Enabled(s, e) && !e.Submit? && !e.Disconnect? && !e.Deliver?
    ensures SameConnections(s, Next(s, e))
  {
    match e
    case WriterRun(f, v, stored) =>
      JobIsKnown(s);
      RunJobFrame(s.(writer := []), s.writer[0], f, v, stored);
    case WorkerRun(w, v) =>
      HashingIsKnown(s, w);
      VerifyFrame(s.(hashing := Without(s.hashing, w)), s.hashing[w], v);
    case _ =>
  }

  lemma SubmitKeepsWaits(s: State, c: Conn, k: Kind)
    requires Inv(s) && StatusOf(s, c) == Idle
    ensures Waits(Next(s, Submit(c, k)))
  {
    var t, op := Next(s, Submit(c, k)), |s.kinds|;
    assert Places(s, op) == 0;
    assert Undelivered(t, op);
    forall d | StatusOf(t, d) == Verifying ensures Current(t, d) {
      if d != c { assert Current(s, d); }
    }
    forall o: Op | Undelivered(t, o)
      ensures StatusOf(t, t.owner[o]) != Idle && t.owner[o] in t.current && t.current[t.owner[o]] == o
    {
      if o != op { assert Undelivered(s, o); }
    }
  }

  lemma DeliverKeepsWaits(s: State)
    requires Inv(s) && s.posted != []
    ensures Waits(Next(s, Deliver))
  {
    var t, p := Next(s, Deliver), s.posted[0];
    PostedIsKnown(s);
    assert Places(s, p.op) == 1 && Undelivered(s, p.op);
    forall o: Op ensures Undelivered(t, o) <==> Undelivered(s, o) && o != p.op {
      PostedAppend(s.delivered, p, o);
    }
    forall d | StatusOf(t, d) == Verifying ensures Current(t, d) { assert Current(s, d); }
  }

  lemma StepKeepsWaits(s: State, e: Step)
    requires Inv(s) && Enabled(s, e)
    ensures Waits(Next(s, e))
  {
    match e
    case Submit(c, k) => SubmitKeepsWaits(s, c, k);
    case Deliver => DeliverKeepsWaits(s);
    case Disconnect(c) =>
      var t := Next(s, e);
      forall d | StatusOf(t, d) == Verifying ensures Current(t, d) { assert Current(s, d); }
      forall o: Op | Undelivered(t, o) ensures StatusOf(t, t.owner[o]) != Idle { assert Undelivered(s, o); }
    case _ => OthersKeepConnections(s, e);
      var t := Next(s, e);
      forall d | StatusOf(t, d) == Verifying ensures Current(t, d) { assert Current(s, d); }
      forall o: Op | Undelivered(t, o)
        ensures StatusOf(t, t.owner[o]) != Idle && t.owner[o] in t.current && t.current[t.owner[o]] == o
      {
        assert Undelivered(s, o);
      }
  }

  lemma StepKeepsBounded(s: State, e: Step)
    requires Inv(s) && Enabled(s, e)
    ensures Bounded(Next(s, e)) && Next(s, e).limit == s.limit && Next(s, e).threads == s.threads
    ensures |Next(s, e).kinds| == |s.kinds| + if e.Submit? then 1 else 0
  {
    match e
    case WriterRun(f, v, stored) =>
      JobIsKnown(s);
      RunJobFrame(s.(writer := []), s.writer[0], f, v, stored);
    case WorkerRun(w, v) =>
      HashingIsKnown(s, w);
      VerifyFrame(s.(hashing := Without(s.hashing, w)), s.hashing[w], v);
    case _ =>
  }

  lemma StepKeepsInv(s: State, e: Step)
    requires Inv(s) && Enabled(s, e)
    ensures Inv(Next(s, e))
  {
    StepKeepsBounded(s, e);
    forall op: Op ensures Places(Next(s, e), op) == if op < |Next(s, e).kinds| then 1 else 0 {
      StepKeepsPlaces(s, e, op);
    }
    StepKeepsChecked(s, e);
    StepKeepsWaits(s, e);
  }

  // ------------------------------------------------------------------------- runs

  function Start(limit: nat, threads: nat): (s: State)
    ensures Inv(s)
  {
    State([], [], [], [], [], [], [], [], map[], map[], {}, {}, {}, {}, limit, threads)
  }

  /** A run is a sequence of steps each enabled where it is taken. */
  ghost predicate IsRun(s: State, es: seq<Step>)
    requires Inv(s)
    decreases |es|
  {
    es == [] || (Enabled(s, es[0]) && (StepKeepsInv(s, es[0]); IsRun(Next(s, es[0]), es[1..])))
  }

  ghost function After(s: State, es: seq<Step>): (t: State)
    requires Inv(s) && IsRun(s, es)
    ensures Inv(t)
    decreases |es|
  {
    if es == [] then s else StepKeepsInv(s, es[0]); After(Next(s, es[0]), es[1..])
  }

  function Answers(s: State, op: Op): nat { PostedCount(s.delivered, op) }

  predicate Quiet(s: State) {
    s.writeQ == [] && s.writer == [] && s.hashQ == [] && s.hashing == [] && s.posted == []
  }

  /** In every run: no operation is answered twice, and one that is not in a queue, on a
      thread or posted has been answered; the hash queue keeps its limit; an operation
      answered Busy was never verified; a login is answered Ok exactly when it passed its
      verification, and a password change exactly when its new credential was written, for
      which it had to pass. */
  lemma EveryRunAnswersOnce(limit: nat, threads: nat, es: seq<Step>)
    requires IsRun(Start(limit, threads), es)
    ensures var s := After(Start(limit, threads), es);
      && (forall op: Op :: Answers(s, op) <= if op < |s.kinds| then 1 else 0)
      && (Quiet(s) ==> forall op: Op :: op < |s.kinds| ==> Answers(s, op) == 1)
      && |s.hashQ| <= limit
      && (forall p :: p in s.delivered ==> p.op < |s.kinds| && (p.result == Busy ==> p.op !in s.verified))
      && (forall p :: p in s.delivered && s.kinds[p.op] == Login ==> (p.result == Ok <==> p.op in s.matched))
      && (forall p :: p in s.delivered && s.kinds[p.op] == Change ==>
            (p.result == Ok <==> p.op in s.saved) && (p.op in s.saved ==> p.op in s.matched))
  {
    var s := After(Start(limit, threads), es);
    RunKeepsLimit(Start(limit, threads), es);
    forall op: Op ensures Answers(s, op) <= (if op < |s.kinds| then 1 else 0)
                       && (Quiet(s) && op < |s.kinds| ==> Answers(s, op) == 1) {
      assert Places(s, op) == if op < |s.kinds| then 1 else 0;
    }
    forall p | p in s.delivered ensures AnswerOk(s, p) {}
  }

  lemma {:induction false} RunKeepsLimit(s: State, es: seq<Step>)
    requires Inv(s) && IsRun(s, es)
    ensures After(s, es).limit == s.limit && After(s, es).threads == s.threads
    decreases |es|
  {
    if es != [] {
      StepKeepsBounded(s, es[0]);
      StepKeepsInv(s, es[0]);
      RunKeepsLimit(Next(s, es[0]), es[1..]);
    }
  }

  /** In every run a connection that waits has exactly one operation outstanding: of all the
      operations it ever submitted, the unanswered one is its current one. */
  lemma WaitingHasOneOperation(limit: nat, threads: nat, es: seq<Step>, c: Conn, op: Op)
    requires IsRun(Start(limit, threads), es)
    requires StatusOf(After(Start(limit, threads), es), c) == Verifying
    ensures var s := After(Start(limit, threads), es);
      c in s.current && (op < |s.owner| && s.owner[op] == c && Answers(s, op) == 0 <==> op == s.current[c])
  {
    var s := After(Start(limit, threads), es);
    assert Current(s, c);
    if op < |s.owner| && s.owner[op] == c && Answers(s, op) == 0 {
      assert Undelivered(s, op);
    }
  }

  // ------------------------------------------------------------------ answers do come

  /** Steps of the writer, the workers and the loop; the others are the clients'. */
  predicate Internal(e: Step) { !e.Submit? && !e.WriteOther? && !e.Disconnect? }

  predicate AllInternal(es: seq<Step>) { forall i :: 0 <= i < |es| ==> Internal(es[i]) }

  function Weight(j: Job): nat {
    match j
    case Lookup(_) => 6
    case Store(_) => 2
    case OtherWrite => 1
  }

  function QueueWork(js: seq<Job>): nat {
    if js == [] then 0 else Weight(js[0]) + 1 + QueueWork(js[1..])
  }

  /** How many internal steps can follow, at most. */
  function Work(s: State): nat {
    QueueWork(s.writeQ) + (if s.writer == [] then 0 else Weight(s.writer[0]))
    + 5 * |s.hashQ| + 4 * |s.hashing| + |s.posted|
  }

  lemma {:induction false} QueueWorkAppend(js: seq<Job>, j: Job)
    ensures QueueWork(js + [j]) == QueueWork(js) + Weight(j) + 1
  {
    if js == [] {
      assert js + [j] == [j];
    } else {
      QueueWorkAppend(js[1..], j);
      assert (js + [j])[1..] == js[1..] + [j];
    }
  }

  lemma VerifyWork(s: State, op: Op, v: Verdict)
    requires op < |s.kinds|
    ensures Work(Verify(s, op, v)) <= Work(s) + 3
  {
    QueueWorkAppend(s.writeQ, Store(op));
    match React(s.kinds[op], op in s.known, v)
    case Rewrite =>
    case Reply(r) =>
  }

  lemma HashTaskWork(s: State, op: Op, v: Verdict)
    requires op < |s.kinds|
    ensures Work(RunHashTask(s, op, v)) <= Work(s) + 5
  {
    VerifyWork(s, op, v);
  }

  lemma RunJobWork(s: State, j: Job, f: Found, v: Verdict, stored: bool)
    requires j.OtherWrite? || j.op < |s.kinds|
    ensures Work(RunJob(s, j, f, v, stored)) < Work(s) + Weight(j)
  {
    if j.Lookup? {
      var k := if f == Account then s.(known := s.known + {j.op}) else s;
      assert Work(k) == Work(s);
      HashTaskWork(k, j.op, v);
    }
  }

  lemma InternalStepsShrinkWork(s: State, e: Step)
    requires Inv(s) && Enabled(s, e) && Internal(e)
    ensures Work(Next(s, e)) < Work(s)
  {
    match e
    case WriterTake =>
    case WriterRun(f, v, stored) =>
      JobIsKnown(s);
      RunJobWork(s.(writer := []), s.writer[0], f, v, stored);
    case WorkerTake =>
    case WorkerRun(w, v) =>
      HashingIsKnown(s, w);
      VerifyWork(s.(hashing := Without(s.hashing, w)), s.hashing[w], v);
    case Deliver =>
  }

  lemma WorkGoesOn(s: State) returns (e: Step)
    requires Inv(s) && !Quiet(s)
    ensures Internal(e) && Enabled(s, e)
  {
    e := if s.posted != [] then Deliver
         else if s.writer != [] then WriterRun(NoAccount, Mismatch, false)
         else if s.writeQ != [] then WriterTake
         else if s.hashing != [] then WorkerRun(0, Mismatch)
         else WorkerTake;
  }

  /** However the threads are scheduled, a run of internal steps is no longer than the work
      there was; when none is left to take, every operation has its one answer, and no
      connection is waiting any more. */
  lemma {:induction false} AnswersCome(s: State, es: seq<Step>)
    requires Inv(s) && IsRun(s, es) && AllInternal(es)
    ensures var t := After(s, es);
      && |es| + Work(t) <= Work(s)
      && ((forall e :: Internal(e) ==> !Enabled(t, e)) ==>
            && (forall op: Op :: op < |t.kinds| ==> Answers(t, op) == 1)
            && (forall c :: StatusOf(t, c) != Verifying))
    decreases |es|
  {
    if es != [] {
      assert Internal(es[0]);
      InternalStepsShrinkWork(s, es[0]);
      StepKeepsInv(s, es[0]);
      AnswersCome(Next(s, es[0]), es[1..]);
    } else if forall e :: Internal(e) ==> !Enabled(s, e) {
      if !Quiet(s) {
        var e := WorkGoesOn(s);
        assert false;
      }
      forall op: Op | op < |s.kinds| ensures Answers(s, op) == 1 {
        assert Places(s, op) == 1;
      }
      forall c ensures StatusOf(s, c) != Verifying {
        if c in s.current && s.current[c] < |s.owner| {
          assert Answers(s, s.current[c]) == 1;
        }
      }
    }
  }
}
