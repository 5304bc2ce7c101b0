/** What the blocked table guarantees over whole runs of the protocol: no rollback loop. */
module Suppression {
  import opened Common
  import opened Refs
  import opened Tagging
  import opened Updater
  import opened Checks
  import opened Protocol

  /** The event reads a remote digest other than `d` for the key. */
  ghost predicate ReadsOther(e: Event, key: string, d: Digest) {
    WholePoll(e) &&
    exists i :: 0 <= i < |e.readings| && ReadsAt(e, i, key) && e.readings[i].remote != d
  }

  /** The check gets to image i, which is filed under the key. */
  ghost predicate ReadsAt(e: Event, i: nat, key: string)
    requires WholePoll(e) && i < |e.readings|
    ensures ReadsAt(e, i, key) ==> e.readings[i].Reading?
  {
    Key(e.svc.name, e.svc.images[i]) == key && Reached(e.readings, i)
  }

  ghost predicate Unblocks(e: Event, key: string) {
    e.UnblockCall? && HasPrefix(key, e.service + "/")
  }

  /** Each image is listed once, and the registry never answers an empty digest. */
  ghost predicate Sane(e: Event) {
    e.Poll? ==>
      Distinct(e.svc.images) && forall i :: 0 <= i < |e.readings| && e.readings[i].Reading? ==>
          e.readings[i].remote != ""
  }

  /** Service names hold no slash, so that keys tell services apart. */
  ghost predicate SlashFree(e: Event) {
    match e
    case Poll(svc, _, _, _, _) => '/' !in svc.name
    case UnblockCall(s) => '/' !in s
    case _ => true
  }

  ghost predicate AllSane(es: seq<Event>) {
    forall k :: 0 <= k < |es| ==> Sane(es[k])
  }

  ghost predicate AllSlashFree(es: seq<Event>) {
    forall k :: 0 <= k < |es| ==> SlashFree(es[k])
  }

  // ---- what is known of operations in flight ----

  /** The list carries digest d for the key. */
  ghost predicate Carries(s: string, changed: seq<ImageChange>, key: string, d: Digest) {
    exists c :: c in changed && Key(s, c.image) == key && c.newDigest == d
  }

  ghost predicate SaneOp(op: Op) {
    op.kind.Guarded? ==>
      && op.kind.changed != [] && DistinctChanges(op.kind.changed)
      && forall c :: c in op.kind.changed ==> c.newDigest != ""
  }

  ghost predicate SaneOps(g: State) {
    forall i :: 0 <= i < |g.ops| ==> SaneOp(g.ops[i])
  }

  /** The operations after a step are old ones, possibly one phase on, or the one it started. */
  lemma OpsOrigin(g: State, e: Event, i: nat)
    requires i < |Step(g, e).ops|
    ensures var op := Step(g, e).ops[i];
            || (exists j :: 0 <= j < |g.ops| && g.ops[j].service == op.service && g.ops[j].kind == op.kind)
            || !op.kind.Guarded?
            || (WholePoll(e) && e.svc.name == op.service
                && op.kind.changed == ScanOf(g.t, e).changed && op.kind.changed != [])
  {
    hide CheckImages, Drift, Unblock, Cleanup;
    var g' := Step(g, e);
    if i < |g.ops| && g'.ops[i].kind == g.ops[i].kind && g'.ops[i].service == g.ops[i].service {
    } else if i + 1 < |g.ops| && g'.ops[i] == g.ops[i + 1] {
    } else {
      assert i == |g.ops|;
    }
  }

  lemma {:induction false} RunsKeepOpsSane(es: seq<Event>)
    requires AllSane(es)
    ensures SaneOps(Run(es))
  {
    hide Step, Check, CheckImages;
    if es != [] {
      var n := |es| - 1;
      RunsKeepOpsSane(es[..n]);
      var g, e := Run(es[..n]), es[n];
      assert Sane(e);
      forall i | 0 <= i < |Step(g, e).ops| ensures SaneOp(Step(g, e).ops[i]) {
        OpsOrigin(g, e, i);
        var op := Step(g, e).ops[i];
        if j :| 0 <= j < |g.ops| && g.ops[j].service == op.service && g.ops[j].kind == op.kind {
          assert SaneOp(g.ops[j]);
        } else if op.kind.Guarded? {
          ChangesAreDistinct(g.t, e.svc.name, e.svc.images, e.readings);
          ChangesWereRead(g.t, e.svc.name, e.svc.images, e.readings);
        }
      }
    }
  }

  /** The image list holds an image filed under the key. */
  ghost predicate Files(svc: Service, key: string) {
    exists i :: 0 <= i < |svc.images| && Key(svc.name, svc.images[i]) == key
  }

  /** The event checks the key's image only on behalf of service s. */
  ghost predicate Owns(e: Event, key: string, s: string) {
    WholePoll(e) && Files(e.svc, key) ==> e.svc.name == s
  }

  /** One service has the key to itself; names and images of different services can share a key only if a
      name holds a slash. */
  ghost predicate OneOwner(es: seq<Event>, key: string) {
    exists s :: OwnedBy(es, key, s)
  }

  ghost predicate OwnedBy(es: seq<Event>, key: string, s: string) {
    forall k :: 0 <= k < |es| ==> Owns(es[k], key, s)
  }

  lemma SlashFreeHasOneOwner(es: seq<Event>, key: string)
    requires AllSlashFree(es)
    ensures OneOwner(es, key)
  {
    hide Key;
    if k :| 0 <= k < |es| && WholePoll(es[k]) && Files(es[k].svc, key) {
      var s := es[k].svc.name;
      forall j | 0 <= j < |es| ensures Owns(es[j], key, s) {
        assert SlashFree(es[j]) && SlashFree(es[k]);
        if WholePoll(es[j]) && Files(es[j].svc, key) { SharedKeySameService(es[j].svc, es[k].svc, key); }
      }
      assert OwnedBy(es, key, s);
    } else {
      assert OwnedBy(es, key, "");
    }
  }

  lemma SharedKeySameService(a: Service, b: Service, key: string)
    requires Files(a, key) && Files(b, key) && '/' !in a.name && '/' !in b.name
    ensures a.name == b.name
  {
    hide Key;
    var i :| 0 <= i < |a.images| && Key(a.name, a.images[i]) == key;
    var j :| 0 <= j < |b.images| && Key(b.name, b.images[j]) == key;
    KeyInjective(a.name, a.images[i], b.name, b.images[j]);
  }

  ghost predicate Concerns(op: Op, key: string) {
    op.kind.Guarded? && exists c :: c in op.kind.changed && Key(op.service, c.image) == key
  }

  ghost predicate OpsOwned(g: State, key: string, s: string) {
    forall i :: 0 <= i < |g.ops| && Concerns(g.ops[i], key) ==> g.ops[i].service == s
  }

  lemma {:induction false} RunsKeepOpsOwned(es: seq<Event>, key: string, s: string)
    requires OwnedBy(es, key, s)
    ensures OpsOwned(Run(es), key, s)
  {
    hide Step, Check, CheckImages, Key;
    if es != [] {
      var n := |es| - 1;
      RunsKeepOpsOwned(es[..n], key, s);
      var g, e := Run(es[..n]), es[n];
      assert Owns(e, key, s);
      forall i | 0 <= i < |Step(g, e).ops| && Concerns(Step(g, e).ops[i], key) ensures Step(g, e).ops[i].service == s {
        OpsOrigin(g, e, i);
        var op := Step(g, e).ops[i];
        if j :| 0 <= j < |g.ops| && g.ops[j].service == op.service && g.ops[j].kind == op.kind {
          assert Concerns(g.ops[j], key);
        } else {
          ChangesWereRead(g.t, e.svc.name, e.svc.images, e.readings);
          assert Files(e.svc, key);
        }
      }
    }
  }

  // ---- no rollback loop ----

  /** The event is the rollback of a deploy that carried digest d for the key. */
  ghost predicate RollsBack(g: State, e: Event, key: string, d: Digest) {
    e.VerifyDone? && e.op < |g.ops| && g.ops[e.op].phase.Verifying? && g.ops[e.op].kind.Guarded? && e.outcome.Failing?
    && Carries(g.ops[e.op].service, g.ops[e.op].kind.changed, key, d)
  }

  /** The event rolls back a deploy that carried another digest for the key. */
  ghost predicate Reblocks(g: State, e: Event, key: string, d: Digest) {
    exists d' :: d' != d && RollsBack(g, e, key, d')
  }

  /** The event's check decides to deploy digest d for the key. */
  ghost predicate DecidesDeploy(g: State, e: Event, key: string, d: Digest) {
    WholePoll(e)
    && Check(g.t, e.svc, e.readings, e.status).1.Deploy?
    && Carries(e.svc.name, Check(g.t, e.svc, e.readings, e.status).1.changed, key, d)
  }

  /** A rollback's loop records every digest it carries. */
  lemma {:induction false} BlockRecords(blocked: map<string, Digest>, s: string, changed: seq<ImageChange>, key: string)
    ensures var after := BlockDigests(blocked, s, changed);
            if exists c :: c in changed && Key(s, c.image) == key
            then exists c :: c in changed && Key(s, c.image) == key && Lookup(after, key) == Some(c.newDigest)
            else Lookup(after, key) == Lookup(blocked, key)
  {
    hide Key;
    if changed != [] {
      var n := |changed| - 1;
      BlockRecords(blocked, s, changed[..n], key);
      assert changed == changed[..n] + [changed[n]];
      if Key(s, changed[n].image) == key {
        assert changed[n] in changed;
      } else {
        assert forall c :: c in changed[..n] ==> c in changed;
      }
    }
  }

  lemma RollbackBlocks(g: State, e: Event, key: string, d: Digest)
    requires RollsBack(g, e, key, d) && SaneOps(g)
    ensures d != "" && Lookup(Step(g, e).t.blocked, key) == Some(d)
  {
    hide Key, BlockDigests;
    var op := g.ops[e.op];
    assert SaneOp(op);
    BlockRecords(g.t.blocked, op.service, op.kind.changed, key);
    var c :| c in op.kind.changed && Key(op.service, c.image) == key && c.newDigest == d;
    forall c' | c' in op.kind.changed && Key(op.service, c'.image) == key ensures c' == c {
      KeyInjectiveImage(op.service, c'.image, c.image);
    }
  }

  /** A block survives a step if and only if the step reads no other digest, does not unblock the
      service, and is no rollback of another digest. */
  lemma BlockHolds(g: State, e: Event, key: string, d: Digest)
    requires Lookup(g.t.blocked, key) == Some(d) && d != "" && Sane(e) && SaneOps(g)
    ensures Lookup(Step(g, e).t.blocked, key) == Some(d)
        <==> !ReadsOther(e, key, d) && !Unblocks(e, key) && !Reblocks(g, e, key, d)
  {
    hide Step, RollsBack, ReadsOther, HasPrefix, CheckImages, BlockDigests, SaneOps;
    BlocksAfter(g, e);
    RollsBackOnly(g, e, key);
    if WholePoll(e) {
      PollBlocksExactly(g.t, e, key, d);
    } else {
      assert !ReadsOther(e, key, d) by { OnlyPollsRead(e, key, d); }
      if IsRollback(g, e) { RollbackBlocksExactly(g, e, key, d); }
    }
  }

  lemma OnlyPollsRead(e: Event, key: string, d: Digest)
    ensures ReadsOther(e, key, d) ==> WholePoll(e)
  {}

  lemma RollsBackOnly(g: State, e: Event, key: string)
    ensures forall d :: RollsBack(g, e, key, d) ==> IsRollback(g, e)
  {}

  /** After a rollback the key holds d exactly when no other digest was carried for it. */
  lemma RollbackBlocksExactly(g: State, e: Event, key: string, d: Digest)
    requires IsRollback(g, e) && SaneOps(g) && Lookup(g.t.blocked, key) == Some(d)
    ensures Lookup(Step(g, e).t.blocked, key) == Some(d) <==> !Reblocks(g, e, key, d)
  {
    hide Key, BlockDigests, Step, SaneOps;
    var op := g.ops[e.op];
    BlocksAfter(g, e);
    BlockRecords(g.t.blocked, op.service, op.kind.changed, key);
    if c :| c in op.kind.changed && Key(op.service, c.image) == key {
      assert RollsBack(g, e, key, c.newDigest);
      RollbackBlocks(g, e, key, c.newDigest);
    }
    if d' :| d' != d && RollsBack(g, e, key, d') { RollbackBlocks(g, e, key, d'); }
  }

  ghost predicate IsRollback(g: State, e: Event) {
    e.VerifyDone? && e.op < |g.ops| && g.ops[e.op].phase.Verifying? && g.ops[e.op].kind.Guarded? && e.outcome.Failing?
  }

  /** The only steps that touch blocks and gauge: checks, unblocks and rollbacks. */
  ghost function BlockingTables(g: State, e: Event): Tables {
    if WholePoll(e) then ScanOf(g.t, e).t
    else if e.UnblockCall? then Unblock(g.t, e.service).0
    else if IsRollback(g, e) then Block(g.t, g.ops[e.op].service, g.ops[e.op].kind.changed)
    else g.t
  }

  lemma BlocksAfter(g: State, e: Event)
    ensures Step(g, e).t.blocked == BlockingTables(g, e).blocked
    ensures Step(g, e).t.blockedGauge == BlockingTables(g, e).blockedGauge
  {
    hide Check, CheckImages, Unblock, Block, ComposeStep, VerifyStep, PollStep;
    if WholePoll(e) { PollBlocks(g, e); }
    if e.ComposeDone? && e.op < |g.ops| { ComposeStepShape(g, e.op, e.error); }
    if e.VerifyDone? && e.op < |g.ops| { VerifyBlocks(g, e.op, e.outcome); }
  }

  lemma VerifyBlocks(g: State, i: nat, outcome: Outcome)
    requires i < |g.ops|
    ensures var t, op := VerifyStep(g, i, outcome).t, g.ops[i];
            var b := if op.kind.Guarded? && outcome.Failing? then Block(g.t, op.service, op.kind.changed) else g.t;
            t.blocked == b.blocked && t.blockedGauge == b.blockedGauge
  {
    hide BlockDigests, RemoveAt;
  }

  lemma PollBlocks(g: State, e: Event)
    requires WholePoll(e)
    ensures PollStep(g, e).t.blocked == ScanOf(g.t, e).t.blocked
    ensures PollStep(g, e).t.blockedGauge == ScanOf(g.t, e).t.blockedGauge
  {
    hide Check, CheckImages, Report, TryStart;
    CheckBlocks(g.t, e.svc, e.readings, e.status);
    var (t, next) := Check(g.t, e.svc, e.readings, e.status);
    TryStartKeepsBlocks(t, e.svc.name);
    if next.Failed? { ReportKeepsBlocks(t, e.svc.name, next.message, e.manual); }
    ReportKeepsBlocks(t, e.svc.name, "context canceled", e.manual);
  }

  lemma TryStartKeepsBlocks(t: Tables, s: string)
    ensures TryStart(t, s).0.blocked == t.blocked && TryStart(t, s).0.blockedGauge == t.blockedGauge
  {}

  lemma ReportKeepsBlocks(t: Tables, s: string, msg: string, manual: bool)
    ensures Report(t, s, msg, manual).blocked == t.blocked && Report(t, s, msg, manual).blockedGauge == t.blockedGauge
  {}

  lemma CheckBlocks(t: Tables, svc: Service, rs: seq<Reading>, status: ContainerStatus)
    requires |rs| == |svc.images|
    ensures var t', sc := Check(t, svc, rs, status).0, CheckImages(t, svc.name, svc.images, rs);
            t'.blocked == sc.t.blocked && t'.blockedGauge == sc.t.blockedGauge
  {
    hide CheckImages, Suppressed;
  }

  /** A check keeps a block exactly when it reads no other digest for it, and then does not deploy it. */
  lemma PollBlocksExactly(t: Tables, e: Event, key: string, d: Digest)
    requires WholePoll(e) && Sane(e) && Lookup(t.blocked, key) == Some(d) && d != ""
    ensures Lookup(ScanOf(t, e).t.blocked, key) == Some(d) <==> !ReadsOther(e, key, d)
    ensures !ReadsOther(e, key, d) ==> !Carries(e.svc.name, ScanOf(t, e).changed, key, d)
  {
    hide Key, CheckImages;
    var s, images, changed := e.svc.name, e.svc.images, ScanOf(t, e).changed;
    if i :| 0 <= i < |images| && Key(s, images[i]) == key {
      ImagesAreIndependent(t, s, images, e.readings, i);
      if Reached(e.readings, i) { assert ReadsAt(e, i, key); }
      forall j | 0 <= j < |images| && Key(s, images[j]) == key ensures j == i {
        KeyInjectiveImage(s, images[j], images[i]);
      }
      forall c | c in changed && Key(s, c.image) == key ensures c.image == images[i] {
        KeyInjectiveImage(s, c.image, images[i]);
      }
    } else {
      OtherKeysUntouched(t, s, images, e.readings, key);
    }
  }

  /** The digest a check deploys is the one digest it read for the image. */
  lemma DeployedDigestIsRead(g: State, e: Event, key: string, d: Digest)
    requires DecidesDeploy(g, e, key, d) && Sane(e)
    ensures !ReadsOther(e, key, d)
  {
    hide Key, CheckImages;
    ChangesWereRead(g.t, e.svc.name, e.svc.images, e.readings);
    var c :| c in ScanOf(g.t, e).changed && Key(e.svc.name, c.image) == key && c.newDigest == d;
    forall i | 0 <= i < |e.svc.images| && Key(e.svc.name, e.svc.images[i]) == key ensures e.svc.images[i] == c.image {
      KeyInjectiveImage(e.svc.name, e.svc.images[i], c.image);
    }
  }

  /** Nothing between steps k and n (exclusive) breaks the block of digest d. */
  ghost predicate Undisturbed(es: seq<Event>, k: nat, n: nat, key: string, d: Digest) {
    n <= |es| && forall j :: k < j < n ==>
      !ReadsOther(es[j], key, d) && !Unblocks(es[j], key) && !Reblocks(Run(es[..j]), es[j], key, d)
  }

  lemma {:induction false} BlockPersists(es: seq<Event>, k: nat, n: nat, key: string, d: Digest)
    requires AllSane(es) && k < n <= |es|
    requires RollsBack(Run(es[..k]), es[k], key, d) && Undisturbed(es, k, n, key, d)
    ensures d != "" && Lookup(Run(es[..n]).t.blocked, key) == Some(d)
    decreases n
  {
    hide Step, Run, ReadsOther, Unblocks, Reblocks, RollsBack, Sane;
    RunsKeepOpsSane(es[..n - 1]);
    if n == k + 1 {
      RollbackBlocks(Run(es[..k]), es[k], key, d);
      RunStep(es, k);
    } else {
      BlockPersists(es, k, n - 1, key, d);
      BlockHolds(Run(es[..n - 1]), es[n - 1], key, d);
      RunStep(es, n - 1);
    }
  }

  ghost predicate BlockedThroughout(es: seq<Event>, k: nat, n: nat, key: string, d: Digest) {
    n <= |es| && forall j :: k < j <= n ==> Lookup(Run(es[..j]).t.blocked, key) == Some(d)
  }

  /** From its rollback on, a digest is blocked throughout exactly while nothing disturbs the block. */
  lemma {:induction false} BlockLastsExactly(es: seq<Event>, k: nat, n: nat, key: string, d: Digest)
    requires AllSane(es) && k < n <= |es| && RollsBack(Run(es[..k]), es[k], key, d)
    ensures BlockedThroughout(es, k, n, key, d) <==> Undisturbed(es, k, n, key, d)
    decreases n
  {
    hide Step, Run, ReadsOther, Unblocks, Reblocks, RollsBack, Sane;
    RunStep(es, n - 1);
    RunsKeepOpsSane(es[..n - 1]);
    if n == k + 1 {
      RollbackBlocks(Run(es[..k]), es[k], key, d);
    } else {
      BlockLastsExactly(es, k, n - 1, key, d);
      assert BlockedThroughout(es, k, n, key, d) <==>
          BlockedThroughout(es, k, n - 1, key, d) && Lookup(Run(es[..n]).t.blocked, key) == Some(d);
      if BlockedThroughout(es, k, n - 1, key, d) {
        RollbackBlocks(Run(es[..k]), es[k], key, d) by { RunsKeepOpsSane(es[..k]); }
        BlockHolds(Run(es[..n - 1]), es[n - 1], key, d);
      }
    }
  }

  /** No rollback loop, any interleaving: between the rollback of a digest and a later decision to
      deploy it again, another digest was read, the service was unblocked, or an overlapping deploy
      of the same image was itself rolled back. */
  lemma NoRollbackLoop(es: seq<Event>, k: nat, m: nat, key: string, d: Digest)
    requires AllSane(es) && k < m < |es|
    requires RollsBack(Run(es[..k]), es[k], key, d)
    requires DecidesDeploy(Run(es[..m]), es[m], key, d)
    ensures exists j :: k < j < m &&
              (ReadsOther(es[j], key, d) || Unblocks(es[j], key) || Reblocks(Run(es[..j]), es[j], key, d))
  {
    hide Step, ReadsOther, Unblocks, Reblocks, RollsBack, CheckImages;
    assert Sane(es[m]);
    DeployedDigestIsRead(Run(es[..m]), es[m], key, d);
    if Undisturbed(es, k, m, key, d) {
      BlockPersists(es, k, m, key, d);
      PollBlocksExactly(Run(es[..m]).t, es[m], key, d);
    }
  }

  /** A manual unblock lifts every block of the service and no block of another one that is not nested
      with it. */
  lemma UnblockIsExact(t: Tables, service: string, owner: string, image: string)
    requires owner == service || Apart(owner, service)
    ensures Lookup(Unblock(t, service).0.blocked, Key(owner, image))
         == if owner == service then None else Lookup(t.blocked, Key(owner, image))
  {
    hide Key, HasPrefix;
    if owner == service { KeyPrefixSelf(service, image); } else { ApartKeysPartition(owner, image, service); }
  }

  // ---- with nothing else in flight ----

  /** No deploy in flight carries another digest for the key. */
  ghost predicate NoRival(g: State, key: string, d: Digest) {
    forall i :: 0 <= i < |g.ops| && g.ops[i].kind.Guarded? ==>
      forall d' :: d' != d ==> !Carries(g.ops[i].service, g.ops[i].kind.changed, key, d')
  }

  lemma {:induction false} NoneInFlight(ops: seq<Op>, s: string, i: nat)
    requires InFlight(ops, s) == 0 && i < |ops|
    ensures ops[i].service != s
    decreases |ops|
  {
    var n := |ops| - 1;
    if i < n { NoneInFlight(ops[..n], s, i); }
  }

  /** The rolled-back deploy is the only operation of its service in flight. */
  ghost predicate Alone(g: State, e: Event) {
    e.VerifyDone? && e.op < |g.ops| && InFlight(g.ops, g.ops[e.op].service) == 1
  }

  lemma AfterRollbackNoRival(g: State, e: Event, key: string, d: Digest, s: string)
    requires RollsBack(g, e, key, d) && OpsOwned(g, key, s) && OpsOwned(Step(g, e), key, s) && Alone(g, e)
    ensures NoRival(Step(g, e), key, d)
  {
    hide Key, BlockDigests, InFlight;
    var op, g' := g.ops[e.op], Step(g, e);
    assert Concerns(op, key);
    InFlightWithout(g.ops, e.op, s);
    assert InFlight(g'.ops, s) == 0;
    forall i, d' | 0 <= i < |g'.ops| && g'.ops[i].kind.Guarded? && d' != d
      ensures !Carries(g'.ops[i].service, g'.ops[i].kind.changed, key, d')
    {
      NoneInFlight(g'.ops, s, i);
      assert !Concerns(g'.ops[i], key);
    }
  }

  /** Without overlapping starts a rolled-back deploy is always alone. */
  lemma ExactIsAlone(es: seq<Event>, k: nat, key: string, d: Digest)
    requires NoOverlap(es) && k < |es| && RollsBack(Run(es[..k]), es[k], key, d)
    ensures Alone(Run(es[..k]), es[k])
  {
    hide Run, InFlight;
    ExactRuns(es);
    var g, i := Run(es[..k]), es[k].op;
    assert FlagsExact(g);
    InFlightWithout(g.ops, i, g.ops[i].service);
  }

  lemma CarriedWasRead(t: Tables, e: Event, key: string, d: Digest)
    requires WholePoll(e)
    ensures Carries(e.svc.name, ScanOf(t, e).changed, key, d) ==>
              exists i :: 0 <= i < |e.readings| && ReadsAt(e, i, key) && e.readings[i].remote == d
  {
    hide Key, CheckImages;
    ChangesWereRead(t, e.svc.name, e.svc.images, e.readings);
    var changed := ScanOf(t, e).changed;
    if c :| c in changed && Key(e.svc.name, c.image) == key && c.newDigest == d {
      var n :| 0 <= n < |e.svc.images| && ReadFor(e.svc.images, e.readings, n, c);
      assert ReadsAt(e, n, key);
    }
  }

  lemma NoRivalHolds(g: State, e: Event, key: string, d: Digest)
    requires NoRival(g, key, d) && !ReadsOther(e, key, d) && Sane(e)
    ensures NoRival(Step(g, e), key, d) && !Reblocks(g, e, key, d)
  {
    hide Key, Step, CheckImages;
    var g' := Step(g, e);
    forall i, d' | 0 <= i < |g'.ops| && g'.ops[i].kind.Guarded? && d' != d
      ensures !Carries(g'.ops[i].service, g'.ops[i].kind.changed, key, d')
    {
      OpsOrigin(g, e, i);
      var op := g'.ops[i];
      if j :| 0 <= j < |g.ops| && g.ops[j].service == op.service && g.ops[j].kind == op.kind {
      } else {
        CarriedWasRead(g.t, e, key, d');
      }
    }
  }

  lemma NoRivalStarts(es: seq<Event>, k: nat, key: string, d: Digest)
    requires OneOwner(es, key) && k < |es|
    requires RollsBack(Run(es[..k]), es[k], key, d) && Alone(Run(es[..k]), es[k])
    ensures NoRival(Run(es[..k + 1]), key, d)
  {
    hide Step, Run, RollsBack, Owns, Alone, NoRival, OpsOwned;
    var s :| OwnedBy(es, key, s);
    assert OwnedBy(es[..k], key, s) && OwnedBy(es[..k + 1], key, s);
    RunStep(es, k);
    RunsKeepOpsOwned(es[..k], key, s);
    RunsKeepOpsOwned(es[..k + 1], key, s);
    AfterRollbackNoRival(Run(es[..k]), es[k], key, d, s);
  }

  lemma {:induction false} NoRivalPersists(es: seq<Event>, k: nat, n: nat, key: string, d: Digest)
    requires AllSane(es) && OneOwner(es, key) && k < n <= |es|
    requires RollsBack(Run(es[..k]), es[k], key, d) && Alone(Run(es[..k]), es[k])
    requires forall j :: k < j < n ==> !ReadsOther(es[j], key, d)
    ensures NoRival(Run(es[..n]), key, d)
    ensures forall j :: k < j < n ==> !Reblocks(Run(es[..j]), es[j], key, d)
    decreases n
  {
    hide Step, Run, ReadsOther, Reblocks, RollsBack, Sane, Alone, NoRival, SaneOps;
    RunStep(es, n - 1);
    if n == k + 1 {
      NoRivalStarts(es, k, key, d);
    } else {
      NoRivalPersists(es, k, n - 1, key, d);
      NoRivalHolds(Run(es[..n - 1]), es[n - 1], key, d);
    }
  }

  /** No rollback loop when the rolled-back deploy was the only operation of its service in flight, in
      particular in runs without overlapping starts: only a different digest in the registry or a manual
      unblock lets a rolled-back digest be deployed again. */
  lemma NoRollbackLoopExclusive(es: seq<Event>, k: nat, m: nat, key: string, d: Digest)
    requires AllSane(es) && OneOwner(es, key) && k < m < |es|
    requires RollsBack(Run(es[..k]), es[k], key, d) && Alone(Run(es[..k]), es[k])
    requires DecidesDeploy(Run(es[..m]), es[m], key, d)
    ensures exists j :: k < j < m && (ReadsOther(es[j], key, d) || Unblocks(es[j], key))
  {
    hide Step, ReadsOther, Unblocks, Reblocks, RollsBack, DecidesDeploy;
    NoRollbackLoop(es, k, m, key, d);
    if forall j :: k < j < m ==> !ReadsOther(es[j], key, d) {
      NoRivalPersists(es, k, m, key, d);
    }
  }

  /** Two deploys of one image in verification: the second rollback overwrites the first block, and the
      next check deploys the first digest again. */
  lemma RivalOverwritesBlock(t: Tables, s: string, image: string, d0: Digest, d1: Digest, d2: Digest)
    requires d0 != "" && d1 != "" && d2 != "" && d0 != d1 && d1 != d2
    requires Get(t.notFound, Key(s, image)) == ""
    ensures var g1 := Step(Rivals(t, s, image, d0, d1, d2), VerifyDone(0, Failing));
            var g2 := Step(g1, VerifyDone(0, Failing));
            RollsBack(Rivals(t, s, image, d0, d1, d2), VerifyDone(0, Failing), Key(s, image), d1)
            && DecidesDeploy(g2, PollOf(s, image, d0, d1), Key(s, image), d1)
  {
    hide Key;
    var key := Key(s, image);
    var a, b := ImageChange(image, d0, d1, ""), ImageChange(image, d0, d2, "");
    var g := Rivals(t, s, image, d0, d1, d2);
    assert a in g.ops[0].kind.changed;
    var g1 := Step(g, VerifyDone(0, Failing));
    assert g1.ops == g.ops[1..];
    var g2 := Step(g1, VerifyDone(0, Failing));
    assert BlockDigests(g1.t.blocked, s, [b]) == BlockDigests(g1.t.blocked, s, [b][..0])[key := d2];
    assert g2.t.blocked[key] == d2 && g2.t.notFound == t.notFound;
    OneImage(g2.t, s, image, d0, d1);
    assert a in CheckImages(g2.t, s, [image], [Reading(d1, d0)]).changed;
  }

  ghost function Rivals(t: Tables, s: string, image: string, d0: Digest, d1: Digest, d2: Digest): State {
    State(t, [Op(s, Guarded([ImageChange(image, d0, d1, "")]), false, Verifying),
              Op(s, Guarded([ImageChange(image, d0, d2, "")]), false, Verifying)])
  }

  /** A poll of the single image that finds digest d in the registry while d0 runs. */
  ghost function PollOf(s: string, image: string, d0: Digest, d: Digest): Event {
    Poll(Service(s, [image], false), [Reading(d, d0)], Running, false, false)
  }

  /** A single image that is neither suppressed nor up to date is found changed. */
  lemma OneImage(t: Tables, s: string, image: string, d0: Digest, d: Digest)
    requires d0 != "" && d != d0 && Get(t.blocked, Key(s, image)) != d && Get(t.notFound, Key(s, image)) == ""
    ensures CheckImages(t, s, [image], [Reading(d, d0)]).changed == [ImageChange(image, d0, d, "")]
    ensures CheckImages(t, s, [image], [Reading(d, d0)]).failure.None?
    ensures Get(t.blocked, Key(s, image)) == "" ==> CheckImages(t, s, [image], [Reading(d, d0)]).t == t
  {
    hide Key;
    assert CheckImages(t, s, [image][..0], [Reading(d, d0)][..0]) == Scan(t, [], "", None);
  }

  /** Such a poll starts a guarded deploy when nothing is on record for the service. */
  lemma CleanPollDeploys(g: State, s: string, image: string, d0: Digest, d: Digest)
    requires d0 != "" && d != "" && d != d0 && g.t == EMPTY_TABLES
    ensures Step(g, PollOf(s, image, d0, d))
         == State(g.t.(deploying := {s}), g.ops + [Op(s, Guarded([ImageChange(image, d0, d, "")]), false, Composing)])
  {
    hide CheckImages, Key;
    OneImage(g.t, s, image, d0, d);
    assert {} + {s} == {s};
  }

  /** From the start: a forced redeploy that fails uncovers the deploy of d1, so the poll for d2 starts
      a second one; both succeed in compose, then both fail verification. */
  ghost function RivalRun(s: string, image: string, d0: Digest, d1: Digest, d2: Digest): seq<Event> {
    [PollOf(s, image, d0, d1), ForceRedeploy(s), ComposeDone(1, Some("compose failed")), PollOf(s, image, d0, d2),
     ComposeDone(0, None), ComposeDone(1, None), VerifyDone(0, Failing), VerifyDone(0, Failing),
     PollOf(s, image, d0, d1)]
  }

  /** The overlap: two deploys of the image are composing. */
  lemma RivalsOverlap(s: string, image: string, d0: Digest, d1: Digest, d2: Digest)
    requires d0 != "" && d1 != "" && d2 != "" && d0 != d1 && d0 != d2
    ensures Run(RivalRun(s, image, d0, d1, d2)[..4]) ==
              State(EMPTY_TABLES.(deploying := {s}), [Composes(s, image, d0, d1), Composes(s, image, d0, d2)])
  {
    hide CheckImages, Check, Run;
    var es, flagged := RivalRun(s, image, d0, d1, d2), EMPTY_TABLES.(deploying := {s});
    assert es[..0] == [] && {s} - {s} == {};
    NothingRun();
    RunStep(es, 0);
    CleanPollDeploys(INIT, s, image, d0, d1);
    RunStep(es, 1);
    RunStep(es, 2);
    UncoveredByForce(State(flagged, [Composes(s, image, d0, d1)]), s);
    RunStep(es, 3);
    CleanPollDeploys(Run(es[..3]), s, image, d0, d2);
  }

  function Composes(s: string, image: string, d0: Digest, d: Digest): Op {
    Op(s, Guarded([ImageChange(image, d0, d, "")]), false, Composing)
  }

  /** A forced redeploy that fails at once leaves the operations as they were and the flag clear. */
  lemma UncoveredByForce(g: State, s: string)
    requires g.t == EMPTY_TABLES.(deploying := {s}) && |g.ops| == 1
    ensures Step(Step(g, ForceRedeploy(s)), ComposeDone(1, Some("compose failed"))) == State(EMPTY_TABLES, g.ops)
  {
    assert {s} - {s} == {};
    assert RemoveAt(g.ops + [Op(s, Forced, false, Composing)], 1) == g.ops;
  }

  lemma RivalsAreReached(s: string, image: string, d0: Digest, d1: Digest, d2: Digest)
    requires d0 != "" && d1 != "" && d2 != "" && d0 != d1 && d0 != d2
    ensures Run(RivalRun(s, image, d0, d1, d2)[..6]) == Rivals(EMPTY_TABLES.(deploying := {s}), s, image, d0, d1, d2)
  {
    hide CheckImages, Check, Run;
    RivalsOverlap(s, image, d0, d1, d2);
    RunStep(RivalRun(s, image, d0, d1, d2), 4);
    RunStep(RivalRun(s, image, d0, d1, d2), 5);
  }

  lemma NothingRun()
    ensures Run([]) == INIT
  {}

  /** Why the exclusion matters: an overlap lets two deploys of one image run, the second rollback
      overwrites the block of d1, and d1 is deployed again though no check read another digest since and
      nobody unblocked the service. */
  lemma RivalRollbackReopens(s: string, image: string, d0: Digest, d1: Digest, d2: Digest)
    requires d0 != "" && d1 != "" && d2 != "" && d0 != d1 && d0 != d2 && d1 != d2
    ensures var es := RivalRun(s, image, d0, d1, d2);
            && AllSane(es)
            && RollsBack(Run(es[..6]), es[6], Key(s, image), d1)
            && DecidesDeploy(Run(es[..8]), es[8], Key(s, image), d1)
            && forall j :: 6 < j < 8 ==> !ReadsOther(es[j], Key(s, image), d1) && !Unblocks(es[j], Key(s, image))
  {
    hide Key, Run, Step, RollsBack, DecidesDeploy, Rivals;
    var es := RivalRun(s, image, d0, d1, d2);
    RivalsAreReached(s, image, d0, d1, d2);
    RunStep(es, 6);
    RunStep(es, 7);
    RivalOverwritesBlock(EMPTY_TABLES.(deploying := {s}), s, image, d0, d1, d2);
  }

  /** A manual unblock answers true exactly when it lifted something. */
  lemma UnblockAnswers(t: Tables, s: string)
    ensures Unblock(t, s).1 <==> Unblock(t, s).0.blocked != t.blocked
  {
    hide HasPrefix;
    if Unblock(t, s).1 {
      var k :| k in t.blocked && HasPrefix(k, s + "/");
      assert k !in Unblock(t, s).0.blocked;
    }
  }

  /** The cleanup keeps exactly the entries of configured names, in the three tables it looks at. */
  lemma CleanupExactly(t: Tables, current: set<string>, s: string)
    ensures var t' := Cleanup(t, current);
            && Lookup(t'.errored, s) == (if s in current then Lookup(t.errored, s) else None)
            && Lookup(t'.startAttempted, s) == (if s in current then Lookup(t.startAttempted, s) else None)
            && Lookup(t'.composeHashes, s) == (if s in current then Lookup(t.composeHashes, s) else None)
            && t' == t.(errored := t'.errored, startAttempted := t'.startAttempted, composeHashes := t'.composeHashes)
  {}
}
