/** Why a password operation was answered as it was: what its lookup found, what its
    verification said and whether its credential was written, read off the steps of a run. */
module AuthTrails {
  import opened AsyncAuth

  /** What the steps of a run have brought for one operation. `full` says that the hash queue
      had no room when its lookup was done. */
  datatype Trail = Trail(found: seq<Found>, full: bool, verdicts: seq<Verdict>, writes: seq<bool>)

  const BLANK := Trail([], false, [], [])

  /** A login is verified also when there is no account, then against a dummy. */
  predicate Verifies(k: Kind, f: Found) { f == Account || (f == NoAccount && k == Login) }

  /** A new credential is written after a password change that passed, and after a login that
      passed with an outdated one. */
  predicate Saves(k: Kind, f: Found, v: Verdict) {
    f == Account && v.Match? && v.hashed && (k == Login ==> v.rehash)
  }

  function NextTrail(s: State, e: Step, op: Op, t: Trail): Trail {
    match e
    case WriterRun(f, v, stored) =>
      if s.writer == [Lookup(op)] then
        var here := s.threads == 0 && op < |s.kinds| && Verifies(s.kinds[op], f);
        Trail(t.found + [f], s.threads > 0 && |s.hashQ| >= s.limit,
              if here then t.verdicts + [v] else t.verdicts, t.writes)
      else if s.writer == [Store(op)] then t.(writes := t.writes + [stored])
      else t
    case WorkerRun(w, v) => if w < |s.hashing| && s.hashing[w] == op then t.(verdicts := t.verdicts + [v]) else t
    case _ => t
  }

  /** The trail of an operation after a run. */
  ghost function TrailOf(s: State, es: seq<Step>, op: Op, t: Trail): Trail
    requires Inv(s) && IsRun(s, es)
    decreases |es|
  {
    if es == [] then t
    else StepKeepsInv(s, es[0]); TrailOf(Next(s, es[0]), es[1..], op, NextTrail(s, es[0], op, t))
  }

  // ------------------------------------------------------------------- the due answer

  /** Everything has happened that the operation needs, once. */
  predicate Complete(k: Kind, t: Trail) {
    && |t.found| == 1
    && if t.full || !Verifies(k, t.found[0]) then t.verdicts == [] && t.writes == []
       else |t.verdicts| == 1 && |t.writes| == if Saves(k, t.found[0], t.verdicts[0]) then 1 else 0
  }

  function Due(k: Kind, t: Trail): Result
    requires Complete(k, t)
  {
    match k
    case Login =>
      if t.found[0] == LookupFailed then BadCredentials
      else if t.full then Busy
      else if t.found[0] == Account && t.verdicts[0].Match? then Ok
      else BadCredentials
    case Change =>
      if t.found[0] == LookupFailed then Error
      else if t.found[0] == NoAccount then BadCredentials
      else if t.full then Busy
      else
        match t.verdicts[0]
        case VerifyFailed => Error
        case Mismatch => BadCredentials
        case Match(_, hashed) => if hashed && t.writes == [true] then Ok else Error
  }

  // ----------------------------------------------------------------------- invariant

  predicate LooksUp(s: State, op: Op) { Lookup(op) in s.writeQ || Lookup(op) in s.writer }
  predicate Stores(s: State, op: Op) { Store(op) in s.writeQ || Store(op) in s.writer }
  predicate Hashes(s: State, op: Op) { op in s.hashQ || op in s.hashing }

  predicate ToVerify(s: State, op: Op, t: Trail)
    requires op < |s.kinds|
  {
    && |t.found| == 1 && !t.full && t.verdicts == [] && t.writes == [] && Verifies(s.kinds[op], t.found[0])
    && (op in s.known <==> t.found[0] == Account)
  }

  predicate ToWrite(k: Kind, t: Trail) {
    && |t.found| == 1 && !t.full && |t.verdicts| == 1 && t.writes == []
    && Verifies(k, t.found[0]) && Saves(k, t.found[0], t.verdicts[0])
  }

  predicate Answered(k: Kind, t: Trail, r: Result) { Complete(k, t) && r == Due(k, t) }

  /** The trail fits the place the operation is in. */
  predicate Traced(s: State, op: Op, t: Trail) {
    if op >= |s.kinds| then t == BLANK && op !in s.known
    else
      && (LooksUp(s, op) ==> t == BLANK && op !in s.known)
      && (Hashes(s, op) ==> ToVerify(s, op, t))
      && (Stores(s, op) ==> ToWrite(s.kinds[op], t))
      && (forall p :: p in s.posted && p.op == op ==> Answered(s.kinds[op], t, p.result))
      && (forall p :: p in s.delivered && p.op == op ==> Answered(s.kinds[op], t, p.result))
  }

  /** The operation is in no place. */
  predicate Absent(s: State, op: Op) {
    && !LooksUp(s, op) && !Hashes(s, op) && !Stores(s, op)
    && (forall p :: p in s.posted ==> p.op != op) && (forall p :: p in s.delivered ==> p.op != op)
  }

  lemma NowhereIsAbsent(s: State, op: Op)
    requires Places(s, op) == 0
    ensures Absent(s, op)
  {
    if Lookup(op) in s.writeQ { JobCounted(s.writeQ, Lookup(op)); }
    if Lookup(op) in s.writer { JobCounted(s.writer, Lookup(op)); }
    if Store(op) in s.writeQ { JobCounted(s.writeQ, Store(op)); }
    if Store(op) in s.writer { JobCounted(s.writer, Store(op)); }
    OpCounted(s.hashQ, op);
    OpCounted(s.hashing, op);
    forall p | p in s.posted ensures p.op != op { PostedCounted(s.posted, p); }
    forall p | p in s.delivered ensures p.op != op { PostedCounted(s.delivered, p); }
  }

  // ------------------------------------------------------- what one operation's own step does

  lemma PostTraces(s: State, op: Op, r: Result, t: Trail)
    requires op < |s.kinds| && Absent(s, op) && Answered(s.kinds[op], t, r)
    ensures Traced(Post(s, op, r), op, t)
  {
  }

  lemma VerifyTraces(s: State, op: Op, v: Verdict, t: Trail)
    requires op < |s.kinds| && Absent(s, op) && ToVerify(s, op, t)
    ensures Traced(Verify(s, op, v), op, t.(verdicts := [v]))
  {
    var m := Marked(s, op, Passes(s.kinds[op], op in s.known, v));
    assert Absent(m, op);
    match React(s.kinds[op], op in s.known, v)
    case Rewrite =>
    case Reply(r) => PostTraces(m, op, r, t.(verdicts := [v]));
  }

  lemma LookupTraces(s: State, op: Op, f: Found, v: Verdict, stored: bool)
    requires op < |s.kinds| && Absent(s, op) && op !in s.known && s.writer == []
    ensures var looked := s.(writer := [Lookup(op)]);
            Traced(RunJob(s, Lookup(op), f, v, stored), op, NextTrail(looked, WriterRun(f, v, stored), op, BLANK))
  {
    var t := NextTrail(s.(writer := [Lookup(op)]), WriterRun(f, v, stored), op, BLANK);
    if f == LookupFailed {
      PostTraces(s, op, if s.kinds[op] == Login then BadCredentials else Error, t);
    } else if f == NoAccount && s.kinds[op] == Change {
      PostTraces(s, op, BadCredentials, t);
    } else {
      var k := if f == Account then s.(known := s.known + {op}) else s;
      assert Absent(k, op);
      if s.threads == 0 {
        VerifyTraces(k, op, v, Trail([f], false, [], []));
        assert t == Trail([f], false, [v], []);
      } else if |s.hashQ| >= s.limit {
        PostTraces(k, op, Busy, t);
      }
    }
  }

  lemma StoreTraces(s: State, op: Op, stored: bool, t: Trail)
    requires op < |s.kinds| && Absent(s, op) && ToWrite(s.kinds[op], t)
    ensures Traced(RunJob(s, Store(op), NoAccount, Mismatch, stored), op, t.(writes := [stored]))
  {
    var m := Written(s, op, stored);
    assert Absent(m, op);
    PostTraces(m, op, if s.kinds[op] == Login || stored then Ok else Error, t.(writes := [stored]));
  }

  // -------------------------------------------------- what the steps of the others leave alone

  lemma OthersPost(s: State, a: Op, r: Result, op: Op, t: Trail)
    requires a != op && Traced(s, op, t)
    ensures Traced(Post(s, a, r), op, t)
  {
  }

  lemma OthersVerify(s: State, a: Op, v: Verdict, op: Op, t: Trail)
    requires a < |s.kinds| && a != op && Traced(s, op, t)
    ensures Traced(Verify(s, a, v), op, t)
  {
    var m := Marked(s, a, Passes(s.kinds[a], a in s.known, v));
    assert Traced(m, op, t);
    match React(s.kinds[a], a in s.known, v)
    case Rewrite =>
    case Reply(r) => OthersPost(m, a, r, op, t);
  }

  lemma OthersJob(s: State, j: Job, f: Found, v: Verdict, stored: bool, op: Op, t: Trail)
    requires j.OtherWrite? || (j.op < |s.kinds| && j.op != op)
    requires Traced(s, op, t)
    ensures Traced(RunJob(s, j, f, v, stored), op, t)
  {
    match j
    case OtherWrite =>
    case Store(a) =>
      assert Traced(Written(s, a, stored), op, t);
      OthersPost(Written(s, a, stored), a, if s.kinds[a] == Login || stored then Ok else Error, op, t);
    case Lookup(a) =>
      var k := if f == Account then s.(known := s.known + {a}) else s;
      assert Traced(k, op, t);
      if f == LookupFailed {
        OthersPost(s, a, if s.kinds[a] == Login then BadCredentials else Error, op, t);
      } else if f == NoAccount && s.kinds[a] == Change {
        OthersPost(s, a, BadCredentials, op, t);
      } else if s.threads == 0 {
        OthersVerify(k, a, v, op, t);
      } else if |s.hashQ| >= s.limit {
        OthersPost(k, a, Busy, op, t);
      }
  }

  // --------------------------------------------------------------------------- every step

  lemma SubmitTraces(s: State, c: Conn, k: Kind, op: Op, t: Trail)
    requires Inv(s) && Enabled(s, Submit(c, k)) && Traced(s, op, t)
    ensures Traced(Next(s, Submit(c, k)), op, t)
  {
    assert Places(s, op) == if op < |s.kinds| then 1 else 0;
    if op == |s.kinds| { NowhereIsAbsent(s, op); }
  }

  lemma TakenJobIsAbsent(s: State, op: Op)
    requires Inv(s) && s.writer != [] && !s.writer[0].OtherWrite? && s.writer[0].op == op
    ensures op < |s.kinds| && Absent(s.(writer := []), op)
  {
    JobIsKnown(s);
    assert s.writer[1..] == [] && JobCount(s.writer, op) == 1 && Places(s, op) == 1;
    assert Places(s.(writer := []), op) == 0;
    NowhereIsAbsent(s.(writer := []), op);
  }

  lemma OwnJobTraces(s: State, f: Found, v: Verdict, stored: bool, op: Op, t: Trail)
    requires Inv(s) && s.writer != [] && !s.writer[0].OtherWrite? && s.writer[0].op == op && Traced(s, op, t)
    ensures op < |s.kinds|
    ensures var e := WriterRun(f, v, stored);
            Traced(RunJob(s.(writer := []), s.writer[0], f, v, stored), op, NextTrail(s, e, op, t))
  {
    TakenJobIsAbsent(s, op);
    var j, u := s.writer[0], s.(writer := []);
    assert s.writer == [j] && j in s.writer;
    if j.Lookup? {
      assert u.(writer := [Lookup(op)]) == s;
      LookupTraces(u, op, f, v, stored);
    } else {
      StoreTraces(u, op, stored, t);
      assert t.writes + [stored] == [stored];
    }
  }

  lemma WriterRunTraces(s: State, f: Found, v: Verdict, stored: bool, op: Op, t: Trail)
    requires Inv(s) && s.writer != [] && Traced(s, op, t)
    ensures var e := WriterRun(f, v, stored); Traced(Next(s, e), op, NextTrail(s, e, op, t))
  {
    JobIsKnown(s);
    var j, u := s.writer[0], s.(writer := []);
    if !j.OtherWrite? && j.op == op {
      OwnJobTraces(s, f, v, stored, op, t);
    } else {
      assert Traced(u, op, t);
      OthersJob(u, j, f, v, stored, op, t);
    }
  }

  lemma WorkerRunTraces(s: State, w: nat, v: Verdict, op: Op, t: Trail)
    requires Inv(s) && w < |s.hashing| && Traced(s, op, t)
    ensures Traced(Next(s, WorkerRun(w, v)), op, NextTrail(s, WorkerRun(w, v), op, t))
  {
    HashingIsKnown(s, w);
    var a, u := s.hashing[w], s.(hashing := Without(s.hashing, w));
    assert a in s.hashing;
    if a == op {
      OpRemove(s.hashing, w, op);
      assert Places(s, op) == 1 && Places(u, op) == 0;
      NowhereIsAbsent(u, op);
      VerifyTraces(u, op, v, t);
      assert t.verdicts + [v] == [v];
    } else {
      assert Traced(u, op, t);
      OthersVerify(u, a, v, op, t);
    }
  }

  lemma StepTraces(s: State, e: Step, op: Op, t: Trail)
    requires Inv(s) && Enabled(s, e) && Traced(s, op, t)
    ensures Traced(Next(s, e), op, NextTrail(s, e, op, t))
  {
    match e
    case Submit(c, k) => SubmitTraces(s, c, k, op, t);
    case WriteOther =>
    case Disconnect(c) =>
    case WriterTake =>
    case WriterRun(f, v, stored) => WriterRunTraces(s, f, v, stored, op, t);
    case WorkerTake =>
    case WorkerRun(w, v) => WorkerRunTraces(s, w, v, op, t);
    case Deliver =>
  }

  lemma {:induction false} RunTraces(s: State, es: seq<Step>, op: Op, t: Trail)
    requires Inv(s) && IsRun(s, es) && Traced(s, op, t)
    ensures Traced(After(s, es), op, TrailOf(s, es, op, t))
    decreases |es|
  {
    if es != [] {
      StepKeepsInv(s, es[0]);
      StepTraces(s, es[0], op, t);
      RunTraces(Next(s, es[0]), es[1..], op, NextTrail(s, es[0], op, t));
    }
  }

  /** In every run each answer is the one due to what the steps of the run have brought for
      its operation, and everything the operation needs has happened exactly once. */
  lemma EveryAnswerIsDue(limit: nat, threads: nat, es: seq<Step>, p: Posted)
    requires IsRun(Start(limit, threads), es) && p in After(Start(limit, threads), es).delivered
    ensures var s, t := After(Start(limit, threads), es), TrailOf(Start(limit, threads), es, p.op, BLANK);
      p.op < |s.kinds| && Complete(s.kinds[p.op], t) && p.result == Due(s.kinds[p.op], t)
  {
    RunTraces(Start(limit, threads), es, p.op, BLANK);
    assert AnswerOk(After(Start(limit, threads), es), p);
  }

  // ----------------------------------------------------------------- in terms of the steps

  /** A step of the run looks the operation up with this outcome. */
  ghost predicate LookedUp(s: State, es: seq<Step>, op: Op, f: Found)
    requires Inv(s) && IsRun(s, es)
    decreases |es|
  {
    es != [] &&
    (|| (es[0].WriterRun? && s.writer == [Lookup(op)] && es[0].found == f)
     || (StepKeepsInv(s, es[0]); LookedUp(Next(s, es[0]), es[1..], op, f)))
  }

  /** A step verifies the operation with this outcome: a worker, or without a pool the writer
      right after a lookup that calls for it. */
  predicate VerifiesNow(s: State, e: Step, op: Op, v: Verdict) {
    || (e.WorkerRun? && e.worker < |s.hashing| && s.hashing[e.worker] == op && e.verdict == v)
    || (e.WriterRun? && s.writer == [Lookup(op)] && s.threads == 0 && op < |s.kinds|
        && Verifies(s.kinds[op], e.found) && e.verdict == v)
  }

  ghost predicate Verified(s: State, es: seq<Step>, op: Op, v: Verdict)
    requires Inv(s) && IsRun(s, es)
    decreases |es|
  {
    es != [] &&
    (VerifiesNow(s, es[0], op, v) || (StepKeepsInv(s, es[0]); Verified(Next(s, es[0]), es[1..], op, v)))
  }

  /** A step writes the new credential of the operation, or fails to. */
  ghost predicate Wrote(s: State, es: seq<Step>, op: Op, stored: bool)
    requires Inv(s) && IsRun(s, es)
    decreases |es|
  {
    es != [] &&
    (|| (es[0].WriterRun? && s.writer == [Store(op)] && es[0].stored == stored)
     || (StepKeepsInv(s, es[0]); Wrote(Next(s, es[0]), es[1..], op, stored)))
  }

  /** The trail holds exactly what some step has brought. */
  lemma {:induction false} FoundByStep(s: State, es: seq<Step>, op: Op, t: Trail, f: Found)
    requires Inv(s) && IsRun(s, es)
    ensures f in TrailOf(s, es, op, t).found <==> f in t.found || LookedUp(s, es, op, f)
    decreases |es|
  {
    if es != [] {
      StepKeepsInv(s, es[0]);
      FoundByStep(Next(s, es[0]), es[1..], op, NextTrail(s, es[0], op, t), f);
    }
  }

  lemma {:induction false} VerifiedByStep(s: State, es: seq<Step>, op: Op, t: Trail, v: Verdict)
    requires Inv(s) && IsRun(s, es)
    ensures v in TrailOf(s, es, op, t).verdicts <==> v in t.verdicts || Verified(s, es, op, v)
    decreases |es|
  {
    if es != [] {
      StepKeepsInv(s, es[0]);
      VerifiedByStep(Next(s, es[0]), es[1..], op, NextTrail(s, es[0], op, t), v);
    }
  }

  lemma {:induction false} WrittenByStep(s: State, es: seq<Step>, op: Op, t: Trail, b: bool)
    requires Inv(s) && IsRun(s, es)
    ensures b in TrailOf(s, es, op, t).writes <==> b in t.writes || Wrote(s, es, op, b)
    decreases |es|
  {
    if es != [] {
      StepKeepsInv(s, es[0]);
      WrittenByStep(Next(s, es[0]), es[1..], op, NextTrail(s, es[0], op, t), b);
    }
  }

  lemma TrailIsSteps(limit: nat, threads: nat, es: seq<Step>, op: Op)
    requires IsRun(Start(limit, threads), es)
    ensures var s, t := Start(limit, threads), TrailOf(Start(limit, threads), es, op, BLANK);
      && (forall f :: f in t.found <==> LookedUp(s, es, op, f))
      && (forall v :: v in t.verdicts <==> Verified(s, es, op, v))
      && (forall b :: b in t.writes <==> Wrote(s, es, op, b))
  {
    var s := Start(limit, threads);
    var t := TrailOf(s, es, op, BLANK);
    forall f ensures f in t.found <==> LookedUp(s, es, op, f) { FoundByStep(s, es, op, BLANK, f); }
    forall v ensures v in t.verdicts <==> Verified(s, es, op, v) { VerifiedByStep(s, es, op, BLANK, v); }
    forall b ensures b in t.writes <==> Wrote(s, es, op, b) { WrittenByStep(s, es, op, BLANK, b); }
  }

  lemma LoginOk(t: Trail)
    requires Complete(Login, t)
    ensures Due(Login, t) == Ok <==> Account in t.found && exists v :: v in t.verdicts && v.Match?
  {
    if Due(Login, t) == Ok { assert t.verdicts[0] in t.verdicts; }
  }

  lemma ChangeOk(t: Trail)
    requires Complete(Change, t)
    ensures Due(Change, t) == Ok <==>
              Account in t.found && true in t.writes && exists v :: v in t.verdicts && v.Match? && v.hashed
  {
    if Due(Change, t) == Ok { assert t.verdicts[0] in t.verdicts; }
  }

  /** A login is answered Ok exactly when a step found its account and a step verified it
      with a match. */
  lemma LoginAnswer(limit: nat, threads: nat, es: seq<Step>, p: Posted)
    requires IsRun(Start(limit, threads), es) && p in After(Start(limit, threads), es).delivered
    requires var s := After(Start(limit, threads), es); p.op < |s.kinds| && s.kinds[p.op] == Login
    ensures var s := Start(limit, threads);
      p.result == Ok <==>
        LookedUp(s, es, p.op, Account) && exists v: Verdict :: Verified(s, es, p.op, v) && v.Match?
  {
    EveryAnswerIsDue(limit, threads, es, p);
    TrailIsSteps(limit, threads, es, p.op);
    LoginOk(TrailOf(Start(limit, threads), es, p.op, BLANK));
  }

  /** A login whose account was found and whose password matched is never told otherwise,
      and one without an account is never let in. */
  lemma LoginNeverWrong(limit: nat, threads: nat, es: seq<Step>, p: Posted, v: Verdict)
    requires IsRun(Start(limit, threads), es) && p in After(Start(limit, threads), es).delivered
    requires var s := After(Start(limit, threads), es); p.op < |s.kinds| && s.kinds[p.op] == Login
    ensures var s := Start(limit, threads);
      && (LookedUp(s, es, p.op, Account) && Verified(s, es, p.op, v) && v.Match? ==> p.result == Ok)
      && (LookedUp(s, es, p.op, NoAccount) ==> p.result in {BadCredentials, Busy})
      && (Verified(s, es, p.op, v) && !v.Match? ==> p.result == BadCredentials)
  {
    EveryAnswerIsDue(limit, threads, es, p);
    TrailIsSteps(limit, threads, es, p.op);
  }

  /** A password change is answered Ok exactly when a step found the account, a step verified
      the old password with a match and hashed the new one, and a step wrote it. */
  lemma ChangeAnswer(limit: nat, threads: nat, es: seq<Step>, p: Posted)
    requires IsRun(Start(limit, threads), es) && p in After(Start(limit, threads), es).delivered
    requires var s := After(Start(limit, threads), es); p.op < |s.kinds| && s.kinds[p.op] == Change
    ensures var s := Start(limit, threads);
      p.result == Ok <==>
        && LookedUp(s, es, p.op, Account) && Wrote(s, es, p.op, true)
        && exists v: Verdict :: Verified(s, es, p.op, v) && v.Match? && v.hashed
  {
    EveryAnswerIsDue(limit, threads, es, p);
    TrailIsSteps(limit, threads, es, p.op);
    ChangeOk(TrailOf(Start(limit, threads), es, p.op, BLANK));
  }

  /** A password change is told of a wrong password exactly when there was no account or a
      verification found a mismatch. */
  lemma ChangeRefused(limit: nat, threads: nat, es: seq<Step>, p: Posted)
    requires IsRun(Start(limit, threads), es) && p in After(Start(limit, threads), es).delivered
    requires var s := After(Start(limit, threads), es); p.op < |s.kinds| && s.kinds[p.op] == Change
    ensures var s := Start(limit, threads);
      p.result == BadCredentials <==>
        LookedUp(s, es, p.op, NoAccount) || Verified(s, es, p.op, Mismatch)
  {
    EveryAnswerIsDue(limit, threads, es, p);
    TrailIsSteps(limit, threads, es, p.op);
    var t := TrailOf(Start(limit, threads), es, p.op, BLANK);
    assert t.found[0] in t.found;
    if t.verdicts != [] { assert t.verdicts[0] in t.verdicts; }
  }
}
