/** The blocked gauge against the blocked table, over all runs. */
module Gauge {
  import opened Common
  import opened Refs
  import opened Tagging
  import opened Updater
  import opened Checks
  import opened Protocol
  import opened Suppression

  ghost predicate Holds(blocked: map<string, Digest>, s: string) {
    exists k :: k in blocked && HasPrefix(k, s + "/")
  }

  ghost predicate Raised(t: Tables, s: string) { Lookup(t.blockedGauge, s) == Some(true) }

  /** The event is about the service, or about one whose name is not nested with its own. */
  ghost predicate ApartFrom(e: Event, s: string) {
    match e
    case Poll(svc, _, _, _, _) => svc.name == s || Apart(svc.name, s)
    case UnblockCall(r) => r == s || Apart(r, s)
    case _ => true
  }

  ghost predicate AllApart(es: seq<Event>, s: string) {
    forall k :: 0 <= k < |es| ==> ApartFrom(es[k], s)
  }

  ghost predicate OpsApart(g: State, s: string) {
    forall i :: 0 <= i < |g.ops| && g.ops[i].kind.Guarded? ==> g.ops[i].service == s || Apart(g.ops[i].service, s)
  }

  lemma {:induction false} RunsKeepOpsApart(es: seq<Event>, s: string)
    requires AllApart(es, s)
    ensures OpsApart(Run(es), s)
  {
    hide Step, Check, CheckImages, Apart;
    if es != [] {
      var n := |es| - 1;
      RunsKeepOpsApart(es[..n], s);
      assert ApartFrom(es[n], s);
      forall i | 0 <= i < |Step(Run(es[..n]), es[n]).ops| { OpsOrigin(Run(es[..n]), es[n], i); }
    }
  }

  /** Names that are not nested share no key. */
  lemma OnePrefix(k: string, r: string, s: string)
    requires Apart(r, s) && HasPrefix(k, r + "/") && HasPrefix(k, s + "/")
    ensures r == s
  {
    assert k == Key(r, k[|r| + 1..]);
    ApartKeysPartition(r, k[|r| + 1..], s);
  }

  lemma {:induction false} BlockGrows(blocked: map<string, Digest>, s: string, changed: seq<ImageChange>)
    ensures var after := BlockDigests(blocked, s, changed);
            after.Keys == blocked.Keys + set i | 0 <= i < |changed| :: Key(s, changed[i].image)
  {
    hide Key;
    if changed != [] {
      var n := |changed| - 1;
      BlockGrows(blocked, s, changed[..n]);
      assert forall i :: 0 <= i < n ==> changed[..n][i] == changed[i];
    }
  }

  /** The gauge of the service is up if and only if one of its images is blocked. */
  ghost predicate Right(t: Tables, s: string) { Raised(t, s) <==> Holds(t.blocked, s) }

  /** A loop that gets to image i lifts its block. */
  ghost predicate LiftsAt(t: Tables, s: string, images: seq<string>, rs: seq<Reading>, i: nat)
    requires |rs| == |images| && i < |images|
  {
    Reached(rs, i) && Get(t.blocked, Key(s, images[i])) != "" && Get(t.blocked, Key(s, images[i])) != rs[i].remote
  }

  ghost function Lifted(t: Tables, s: string, images: seq<string>, rs: seq<Reading>): set<string>
    requires |rs| == |images|
  {
    set i: nat | i < |images| && LiftsAt(t, s, images, rs, i) :: Key(s, images[i])
  }

  lemma PassLiftsExactly(sc: Scan, s: string, image: string, r: Reading)
    requires sc.failure.None?
    ensures var key, t' := Key(s, image), CheckImage(sc, s, image, r).t;
            var lifts := r.Reading? && Get(sc.t.blocked, key) != "" && Get(sc.t.blocked, key) != r.remote;
            && t'.blocked == (if lifts then sc.t.blocked - {key} else sc.t.blocked)
            && t'.blockedGauge == (if lifts then sc.t.blockedGauge[s := false] else sc.t.blockedGauge)
  {
    hide Key;
  }

  lemma LiftedGrows(t: Tables, s: string, images: seq<string>, rs: seq<Reading>)
    requires |rs| == |images| && images != []
    ensures var n := |images| - 1;
            Lifted(t, s, images, rs) == Lifted(t, s, images[..n], rs[..n])
              + if LiftsAt(t, s, images, rs, n) then {Key(s, images[n])} else {}
  {
    hide Key, Get;
    var n := |images| - 1;
    forall i: nat | i < n ensures LiftsAt(t, s, images[..n], rs[..n], i) == LiftsAt(t, s, images, rs, i) {
      assert forall j :: 0 <= j <= i ==> rs[..n][j] == rs[j];
    }
  }

  /** What a check does to blocks and gauge: the blocks of the lifting images go, and if there was one
      the gauge drops. */
  lemma {:induction false} CheckLiftsExactly(t: Tables, s: string, images: seq<string>, rs: seq<Reading>)
    requires |rs| == |images| && Distinct(images)
    ensures var t', lifted := CheckImages(t, s, images, rs).t, Lifted(t, s, images, rs);
            && t'.blocked == t.blocked - lifted
            && t'.blockedGauge == if lifted != {} then t.blockedGauge[s := false] else t.blockedGauge
  {
    hide Key, CheckImage, Times, Lifted, Get, Lookup;
    if images == [] {
      assert Lifted(t, s, images, rs) == {} by { NothingLifted(t, s); }
    } else {
      var n := |images| - 1;
      var sc := CheckImages(t, s, images[..n], rs[..n]);
      CheckLiftsExactly(t, s, images[..n], rs[..n]);
      LiftedGrows(t, s, images, rs);
      FailureIffUnreached(t, s, images[..n], rs[..n]);
      LastKeyIsFresh(t, s, images, rs);
      if sc.failure.None? { PassLiftsExactly(sc, s, images[n], rs[n]); }
    }
  }

  lemma NothingLifted(t: Tables, s: string)
    ensures Lifted(t, s, [], []) == {}
  {}

  /** The check lifts some block of the service but not every one it holds. */
  ghost predicate LiftsPartly(t: Tables, e: Event, s: string) {
    WholePoll(e) && e.svc.name == s &&
    var lifted := Lifted(t, s, e.svc.images, e.readings);
    lifted != {} && exists k :: k in t.blocked && HasPrefix(k, s + "/") && k !in lifted
  }

  lemma LiftedAreHeld(t: Tables, s: string, images: seq<string>, rs: seq<Reading>)
    requires |rs| == |images|
    ensures forall k :: k in Lifted(t, s, images, rs) ==> k in t.blocked && HasPrefix(k, s + "/")
  {
    hide Key, HasPrefix;
    forall i: nat | i < |images| && LiftsAt(t, s, images, rs, i) ensures HasPrefix(Key(s, images[i]), s + "/") {
      KeyPrefixSelf(s, images[i]);
    }
  }

  lemma CheckKeepsRight(t: Tables, e: Event, s: string)
    requires WholePoll(e) && Sane(e) && ApartFrom(e, s) && Right(t, s)
    ensures Right(ScanOf(t, e).t, s) <==> !LiftsPartly(t, e, s)
  {
    hide HasPrefix, Lifted, CheckImages;
    var r, lifted := e.svc.name, Lifted(t, e.svc.name, e.svc.images, e.readings);
    CheckLiftsExactly(t, r, e.svc.images, e.readings);
    LiftedAreHeld(t, r, e.svc.images, e.readings);
    if r != s {
      forall k | k in lifted ensures !HasPrefix(k, s + "/") {
        if HasPrefix(k, s + "/") { OnePrefix(k, r, s); }
      }
      assert Holds(ScanOf(t, e).t.blocked, s) <==> Holds(t.blocked, s) by {
        assert forall k :: k in t.blocked && HasPrefix(k, s + "/") ==> k in ScanOf(t, e).t.blocked;
      }
    } else if lifted != {} {
      var k :| k in lifted;
      assert Holds(t.blocked, s);
    } else {
      assert ScanOf(t, e).t.blocked == t.blocked;
    }
  }

  lemma UnblockKeepsRight(t: Tables, r: string, s: string)
    requires (r == s || Apart(r, s)) && Right(t, s)
    ensures Right(Unblock(t, r).0, s)
  {
    hide HasPrefix;
    var t' := Unblock(t, r).0;
    if r != s && Holds(t.blocked, s) {
      var k :| k in t.blocked && HasPrefix(k, s + "/");
      if HasPrefix(k, r + "/") { OnePrefix(k, r, s); }
      assert k in t'.blocked;
    }
  }

  lemma BlockKeepsRight(t: Tables, r: string, changed: seq<ImageChange>, s: string)
    requires (r == s || Apart(r, s)) && Right(t, s) && changed != []
    ensures Right(Block(t, r, changed), s)
  {
    hide HasPrefix, Key, BlockDigests;
    var t' := Block(t, r, changed);
    BlockGrows(t.blocked, r, changed);
    if r == s {
      KeyPrefixSelf(s, changed[0].image);
      assert Key(s, changed[0].image) in t'.blocked;
    } else {
      forall i | 0 <= i < |changed| ensures !HasPrefix(Key(r, changed[i].image), s + "/") {
        ApartKeysPartition(r, changed[i].image, s);
      }
      assert Holds(t'.blocked, s) <==> Holds(t.blocked, s) by {
        assert forall k :: k in t.blocked ==> k in t'.blocked;
      }
    }
  }

  /** From a right gauge a step leaves it right if and only if it is no check that lifts only some of
      the service's blocks. */
  lemma StepKeepsRight(g: State, e: Event, s: string)
    requires Right(g.t, s) && Sane(e) && ApartFrom(e, s) && SaneOps(g) && OpsApart(g, s)
    ensures Right(Step(g, e).t, s) <==> !LiftsPartly(g.t, e, s)
  {
    hide Step, CheckImages, Block, Unblock, LiftsPartly, Right;
    BlocksAfter(g, e);
    SameBlocksSameRight(BlockingTables(g, e), Step(g, e).t, s);
    if WholePoll(e) {
      CheckKeepsRight(g.t, e, s);
    } else {
      OnlyPollsLift(g.t, e, s);
      if e.UnblockCall? {
        UnblockKeepsRight(g.t, e.service, s);
      } else if IsRollback(g, e) {
        assert SaneOp(g.ops[e.op]);
        BlockKeepsRight(g.t, g.ops[e.op].service, g.ops[e.op].kind.changed, s);
      }
    }
  }

  lemma OnlyPollsLift(t: Tables, e: Event, s: string)
    ensures LiftsPartly(t, e, s) ==> WholePoll(e)
  {}

  lemma SameBlocksSameRight(t: Tables, t': Tables, s: string)
    requires t'.blocked == t.blocked && t'.blockedGauge == t.blockedGauge
    ensures Right(t', s) <==> Right(t, s)
  {}

  ghost predicate RightThroughout(es: seq<Event>, s: string) {
    forall k :: 0 <= k <= |es| ==> Right(Run(es[..k]).t, s)
  }

  ghost predicate NeverLiftsPartly(es: seq<Event>, s: string) {
    forall k :: 0 <= k < |es| ==> !LiftsPartly(Run(es[..k]).t, es[k], s)
  }

  /** Over a whole run a service's gauge tells at every point whether one of its images is blocked, if and
      only if no check of the service lifted some of its blocks and left others. */
  lemma {:induction false} GaugeIsRightExactly(es: seq<Event>, s: string)
    requires AllSane(es) && AllApart(es, s)
    ensures RightThroughout(es, s) <==> NeverLiftsPartly(es, s)
  {
    hide Step, Run, Sane, ApartFrom, LiftsPartly, Right, RightThroughout, NeverLiftsPartly;
    if es == [] {
      RightFromStart(s);
    } else {
      var before, e := es[..|es| - 1], es[|es| - 1];
      GaugeIsRightExactly(before, s);
      RightSplits(es, s);
      LiftsSplit(es, s);
      RunStep(es, |es| - 1);
      assert es[..|es| - 1 + 1] == es;
      RunsKeepOpsSane(before);
      RunsKeepOpsApart(before, s);
      if RightThroughout(before, s) {
        RightAtEnd(before, s);
        StepKeepsRight(Run(before), e, s);
      }
    }
  }

  lemma RightFromStart(s: string)
    ensures RightThroughout([], s) && NeverLiftsPartly([], s)
  {}

  lemma RightAtEnd(es: seq<Event>, s: string)
    requires RightThroughout(es, s)
    ensures Right(Run(es).t, s)
  {
    assert es[..|es|] == es;
  }

  lemma RightSplits(es: seq<Event>, s: string)
    requires es != []
    ensures RightThroughout(es, s) <==> RightThroughout(es[..|es| - 1], s) && Right(Run(es).t, s)
  {
    hide Run, Right;
    ThroughoutSplits(es[..|es| - 1], es, (x: seq<Event>) => Right(Run(x).t, s));
  }

  lemma LiftsSplit(es: seq<Event>, s: string)
    requires es != []
    ensures NeverLiftsPartly(es, s) <==>
              NeverLiftsPartly(es[..|es| - 1], s) && !LiftsPartly(Run(es[..|es| - 1]).t, es[|es| - 1], s)
  {
    hide Run, LiftsPartly;
    StepsSplit(es[..|es| - 1], es, (x: seq<Event>, e: Event) => !LiftsPartly(Run(x).t, e, s));
  }

  // ---- never raised in vain ----

  /** A raised gauge is backed by a held block. */
  ghost predicate Backed(t: Tables, s: string) { Raised(t, s) ==> Holds(t.blocked, s) }

  lemma StepKeepsBacked(g: State, e: Event, s: string)
    requires Backed(g.t, s) && Sane(e) && ApartFrom(e, s) && SaneOps(g) && OpsApart(g, s)
    ensures Backed(Step(g, e).t, s)
  {
    hide Step, CheckImages, Block, Unblock, HasPrefix;
    BlocksAfter(g, e);
    if Right(g.t, s) {
      if WholePoll(e) {
        CheckKeepsBacked(g.t, e, s);
      } else if e.UnblockCall? {
        UnblockKeepsRight(g.t, e.service, s);
      } else if IsRollback(g, e) {
        assert SaneOp(g.ops[e.op]);
        BlockKeepsRight(g.t, g.ops[e.op].service, g.ops[e.op].kind.changed, s);
      }
    } else {
      LoweredStaysBacked(g, e, s);
    }
  }

  lemma CheckKeepsBacked(t: Tables, e: Event, s: string)
    requires WholePoll(e) && Sane(e) && ApartFrom(e, s) && Right(t, s)
    ensures Backed(ScanOf(t, e).t, s)
  {
    hide HasPrefix, Lifted, CheckImages;
    CheckKeepsRight(t, e, s);
    CheckLiftsExactly(t, e.svc.name, e.svc.images, e.readings);
  }

  /** A lowered gauge is raised only together with a block. */
  lemma LoweredStaysBacked(g: State, e: Event, s: string)
    requires !Raised(g.t, s) && Sane(e) && SaneOps(g)
    ensures Backed(Step(g, e).t, s)
  {
    hide Step, CheckImages, BlockDigests, HasPrefix, Key;
    BlocksAfter(g, e);
    if WholePoll(e) {
      CheckLiftsExactly(g.t, e.svc.name, e.svc.images, e.readings);
    } else if IsRollback(g, e) && !e.UnblockCall? {
      var op := g.ops[e.op];
      assert SaneOp(op);
      BlockGrows(g.t.blocked, op.service, op.kind.changed);
      KeyPrefixSelf(op.service, op.kind.changed[0].image);
      assert Key(op.service, op.kind.changed[0].image) in Step(g, e).t.blocked;
    }
  }

  /** In every run a raised gauge means some image of the service is blocked, as long as no other service's
      name is nested with its own. */
  lemma {:induction false} RaisedMeansHeld(es: seq<Event>, s: string)
    requires AllSane(es) && AllApart(es, s)
    ensures Backed(Run(es).t, s)
  {
    hide Step, Sane, ApartFrom;
    if es != [] {
      var n := |es| - 1;
      RaisedMeansHeld(es[..n], s);
      RunsKeepOpsSane(es[..n]);
      RunsKeepOpsApart(es[..n], s);
      StepKeepsBacked(Run(es[..n]), es[n], s);
    }
  }

  /** Some check of the run is for the service. */
  ghost predicate Checked(es: seq<Event>, s: string) {
    exists k :: 0 <= k < |es| && WholePoll(es[k]) && es[k].svc.name == s
  }

  lemma {:induction false} OnlyCheckedAreRaised(es: seq<Event>, s: string)
    requires AllSane(es)
    ensures Raised(Run(es).t, s) ==> Checked(es, s)
    ensures forall i :: 0 <= i < |Run(es).ops| && Run(es).ops[i].kind.Guarded? ==> Checked(es, Run(es).ops[i].service)
  {
    hide Step, CheckImages, BlockDigests, Unblock, Check;
    if es != [] {
      var n := |es| - 1;
      var g, e := Run(es[..n]), es[n];
      assert forall r :: Checked(es[..n], r) ==> Checked(es, r);
      OnlyCheckedAreRaised(es[..n], s);
      assert Sane(e);
      BlocksAfter(g, e);
      if WholePoll(e) { CheckLiftsExactly(g.t, e.svc.name, e.svc.images, e.readings); }
      UnblockRaisesNothing(g.t, e, s);
      forall i | 0 <= i < |Run(es).ops| && Run(es).ops[i].kind.Guarded? ensures Checked(es, Run(es).ops[i].service) {
        OpsOrigin(g, e, i);
      }
    }
  }

  lemma UnblockRaisesNothing(t: Tables, e: Event, s: string)
    ensures e.UnblockCall? && Raised(Unblock(t, e.service).0, s) ==> Raised(t, s)
  {}

  ghost predicate GaugeBacked(t: Tables) {
    forall s :: s in t.blockedGauge && t.blockedGauge[s] ==> '/' !in s && Holds(t.blocked, s)
  }

  /** In every run over slash-free service names a raised gauge means some image is held blocked. */
  lemma GaugeIsNeverRaisedInVain(es: seq<Event>)
    requires AllSane(es) && AllSlashFree(es)
    ensures GaugeBacked(Run(es).t)
  {
    hide Run, Holds;
    forall s | Raised(Run(es).t, s) ensures '/' !in s && Holds(Run(es).t.blocked, s) {
      OnlyCheckedAreRaised(es, s);
      SlashFreeAreApart(es, s);
      RaisedMeansHeld(es, s);
    }
    assert forall s :: s in Run(es).t.blockedGauge && Run(es).t.blockedGauge[s] ==> Raised(Run(es).t, s);
  }

  lemma SlashFreeAreApart(es: seq<Event>, s: string)
    requires AllSlashFree(es) && Checked(es, s)
    ensures '/' !in s && AllApart(es, s)
  {
    hide Apart;
    var k :| 0 <= k < |es| && WholePoll(es[k]) && es[k].svc.name == s;
    assert SlashFree(es[k]);
    forall j | 0 <= j < |es| ensures ApartFrom(es[j], s) {
      assert SlashFree(es[j]);
      if es[j].Poll? { SlashFreeIsApart(es[j].svc.name, s); }
      if es[j].UnblockCall? { SlashFreeIsApart(es[j].service, s); }
    }
  }

  /** Service "s/r" is rolled back, then "s" is unblocked by hand. */
  ghost function NestedRun(s: string, r: string, image: string, d0: Digest, d: Digest): seq<Event> {
    [PollOf(s + "/" + r, image, d0, d), ComposeDone(0, None), VerifyDone(0, Failing), UnblockCall(s)]
  }

  /** Names that are nested defeat the gauge: unblocking the outer service lifts the inner one's block and
      leaves its gauge raised. */
  lemma NestedNamesRaiseInVain(s: string, r: string, image: string, d0: Digest, d: Digest)
    requires d0 != "" && d != "" && d != d0
    ensures var t, inner := Run(NestedRun(s, r, image, d0, d)).t, s + "/" + r;
            AllSane(NestedRun(s, r, image, d0, d)) && Raised(t, inner) && !Holds(t.blocked, inner)
  {
    hide Key, Run, CheckImages, Check, HasPrefix;
    var es, inner := NestedRun(s, r, image, d0, d), s + "/" + r;
    NestedBlock(s, r, image, d0, d);
    RunStep(es, 3);
    assert es[..4] == es;
    NestedKey(s, r, image);
    assert |inner| != |s|;
  }

  lemma NestedBlock(s: string, r: string, image: string, d0: Digest, d: Digest)
    requires d0 != "" && d != "" && d != d0
    ensures var t, inner := Run(NestedRun(s, r, image, d0, d)[..3]).t, s + "/" + r;
            Raised(t, inner) && t.blocked == map[Key(inner, image) := d]
  {
    hide Key, Run, CheckImages, Check, HasPrefix;
    var es, inner := NestedRun(s, r, image, d0, d), s + "/" + r;
    var ch := ImageChange(image, d0, d, "");
    assert es[..0] == [];
    NothingRun();
    RunStep(es, 0);
    CleanPollDeploys(INIT, inner, image, d0, d);
    RunStep(es, 1);
    assert Run(es[..2]).ops == [Op(inner, Guarded([ch]), false, Verifying)] && Run(es[..2]).t.blocked == map[];
    RunStep(es, 2);
    assert [ch][..0] == [];
    assert BlockDigests(map[], inner, [ch]) == map[Key(inner, image) := d];
  }

  lemma NestedKey(s: string, r: string, image: string)
    ensures HasPrefix(Key(s + "/" + r, image), s + "/")
  {
    assert Key(s + "/" + r, image)[..|s| + 1] == s + "/";
  }

  // ---- services with a single image ----

  /** The service is only ever checked for this one image. */
  ghost predicate SingleImage(es: seq<Event>, s: string, image: string) {
    forall k :: 0 <= k < |es| ==> ChecksOnly(es[k], s, image)
  }

  ghost predicate ChecksOnly(e: Event, s: string, image: string) {
    e.Poll? && e.svc.name == s ==> forall i :: 0 <= i < |e.svc.images| ==> e.svc.images[i] == image
  }

  /** Only that image is blocked, or may become so by a deploy in flight. */
  ghost predicate OneKey(g: State, s: string, image: string) {
    && (forall k :: k in g.t.blocked && HasPrefix(k, s + "/") ==> k == Key(s, image))
    && (forall i :: 0 <= i < |g.ops| && g.ops[i].kind.Guarded? && g.ops[i].service == s ==>
         OnlyChanges(g.ops[i].kind.changed, image))
  }

  ghost predicate OnlyChanges(changed: seq<ImageChange>, image: string) {
    forall c :: c in changed ==> c.image == image
  }

  lemma StepKeepsOneKey(g: State, e: Event, s: string, image: string)
    requires OneKey(g, s, image) && ChecksOnly(e, s, image) && ApartFrom(e, s) && Sane(e) && SaneOps(g) &&
          OpsApart(g, s)
    ensures OneKey(Step(g, e), s, image)
  {
    hide Step, HasPrefix, Key, CheckImages, SaneOps, Lifted, BlockDigests;
    BlocksAfter(g, e);
    forall k | k in Step(g, e).t.blocked && HasPrefix(k, s + "/") ensures k == Key(s, image) {
      if WholePoll(e) {
        CheckLiftsExactly(g.t, e.svc.name, e.svc.images, e.readings);
      } else if IsRollback(g, e) && !e.UnblockCall? {
        var op := g.ops[e.op];
        BlockGrows(g.t.blocked, op.service, op.kind.changed);
        if k !in g.t.blocked {
          var i :| 0 <= i < |op.kind.changed| && k == Key(op.service, op.kind.changed[i].image);
          if op.service != s { ApartKeysPartition(op.service, op.kind.changed[i].image, s); }
          assert op.kind.changed[i] in op.kind.changed;
        }
      }
    }
    forall i | 0 <= i < |Step(g, e).ops| && Step(g, e).ops[i].kind.Guarded? && Step(g, e).ops[i].service == s
      ensures OnlyChanges(Step(g, e).ops[i].kind.changed, image)
    {
      OpsOrigin(g, e, i);
      if WholePoll(e) { ChangesWereRead(g.t, e.svc.name, e.svc.images, e.readings); }
    }
  }

  lemma {:induction false} RunsKeepOneKey(es: seq<Event>, s: string, image: string)
    requires AllSane(es) && AllApart(es, s) && SingleImage(es, s, image)
    ensures OneKey(Run(es), s, image)
  {
    hide Step, Sane, ApartFrom, ChecksOnly, OneKey;
    if es == [] {
      NoKeyYet(s, image);
    } else {
      var n := |es| - 1;
      RunsKeepOneKey(es[..n], s, image);
      RunsKeepOpsSane(es[..n]);
      RunsKeepOpsApart(es[..n], s);
      StepKeepsOneKey(Run(es[..n]), es[n], s, image);
    }
  }

  lemma NoKeyYet(s: string, image: string)
    ensures OneKey(INIT, s, image)
  {}

  /** The gauge of a service with a single image is right at every point of every run. */
  lemma SingleImageGaugeIsRight(es: seq<Event>, s: string, image: string)
    requires AllSane(es) && AllApart(es, s) && SingleImage(es, s, image)
    ensures RightThroughout(es, s)
  {
    hide Run, Sane, ApartFrom, RightThroughout, ChecksOnly, LiftsPartly, OneKey;
    forall k | 0 <= k < |es| ensures !LiftsPartly(Run(es[..k]).t, es[k], s) {
      RunsKeepOneKey(es[..k], s, image);
      OneKeyIsLiftedWhole(Run(es[..k]), es[k], s, image);
    }
    GaugeIsRightExactly(es, s);
  }

  lemma OneKeyIsLiftedWhole(g: State, e: Event, s: string, image: string)
    requires OneKey(g, s, image)
    ensures !LiftsPartly(g.t, e, s)
  {
    hide HasPrefix, Key, Lifted;
    if WholePoll(e) { LiftedAreHeld(g.t, s, e.svc.images, e.readings); }
  }

  // ---- the failing run ----

  /** Two images rolled back together, then a fix for the first one only. */
  ghost function PartialFixRun(s: string, a: string, b: string, da: Digest, db: Digest, o: Digest,
      fixed: Digest): seq<Event> {
    var svc := Service(s, [a, b], false);
    [Poll(svc, [Reading(da, o), Reading(db, o)], Running, false, false), ComposeDone(0, None), VerifyDone(0, Failing),
     Poll(svc, [Reading(fixed, o), Reading(db, o)], Running, false, false)]
  }

  lemma TwoImagesChanged(s: string, a: string, b: string, da: Digest, db: Digest, o: Digest)
    requires a != b && o != "" && da != o && db != o
    ensures var sc := CheckImages(EMPTY_TABLES, s, [a, b], [Reading(da, o), Reading(db, o)]);
            sc.t == EMPTY_TABLES && sc.failure.None? &&
                sc.changed == [ImageChange(a, o, da, ""), ImageChange(b, o, db, "")]
  {
    hide Key;
    var images, rs := [a, b], [Reading(da, o), Reading(db, o)];
    assert CheckImages(EMPTY_TABLES, s, images[..1][..0], rs[..1][..0]) == Scan(EMPTY_TABLES, [], "", None);
    var sc := CheckImages(EMPTY_TABLES, s, images[..1], rs[..1]);
    assert sc == CheckImage(Scan(EMPTY_TABLES, [], "", None), s, a, rs[0]);
    assert CheckImages(EMPTY_TABLES, s, images, rs) == CheckImage(sc, s, b, rs[1]);
  }

  lemma PartialFixBlocksBoth(s: string, a: string, b: string, da: Digest, db: Digest, o: Digest, fixed: Digest)
    requires a != b && o != "" && da != o && db != o
    ensures var t := Run(PartialFixRun(s, a, b, da, db, o, fixed)[..3]).t;
            t.blocked == map[Key(s, a) := da, Key(s, b) := db]
  {
    hide Key, CheckImages, Run;
    var es := PartialFixRun(s, a, b, da, db, o, fixed);
    var changed := [ImageChange(a, o, da, ""), ImageChange(b, o, db, "")];
    assert es[..0] == [];
    NothingRun();
    TwoImagesChanged(s, a, b, da, db, o);
    RunStep(es, 0);
    assert Run(es[..1]).ops == [Op(s, Guarded(changed), false, Composing)];
    RunStep(es, 1);
    assert Run(es[..2]).ops == [Op(s, Guarded(changed), false, Verifying)] && Run(es[..2]).t.blocked == map[];
    RunStep(es, 2);
    assert changed[..1][..0] == [] && changed[..1] == [changed[0]];
    assert BlockDigests(map[], s, changed[..1]) == map[Key(s, a) := da];
    if Key(s, a) == Key(s, b) { KeyInjectiveImage(s, a, b); }
  }

  /** The documented meaning of the gauge fails: fixing one of two blocked images lowers the gauge while
      the other is still blocked. */
  lemma LoweredGaugeMayHideBlock(s: string, a: string, b: string, da: Digest, db: Digest, o: Digest, fixed: Digest)
    requires a != b && o != "" && da != "" && db != "" && fixed != "" && da != db
    requires da != o && db != o && fixed != da
    ensures var es := PartialFixRun(s, a, b, da, db, o, fixed);
            AllSane(es) && Lookup(Run(es).t.blockedGauge, s) == Some(false) &&
                Lookup(Run(es).t.blocked, Key(s, b)) == Some(db)
  {
    hide Key, CheckImages, Run, Step, Lifted;
    var es := PartialFixRun(s, a, b, da, db, o, fixed);
    var t, e := Run(es[..3]).t, es[3];
    PartialFixBlocksBoth(s, a, b, da, db, o, fixed);
    RunStep(es, 3);
    assert es[..4] == es;
    BlocksAfter(Run(es[..3]), e);
    CheckLiftsExactly(t, s, e.svc.images, e.readings);
    if Key(s, a) == Key(s, b) { KeyInjectiveImage(s, a, b); }
    LiftedOfPartialFix(t, s, a, b, da, db, o, fixed);
  }

  lemma LiftedOfPartialFix(t: Tables, s: string, a: string, b: string, da: Digest, db: Digest, o: Digest, fixed: Digest)
    requires a != b && da != "" && fixed != da && t.blocked == map[Key(s, a) := da, Key(s, b) := db] &&
          Key(s, a) != Key(s, b)
    ensures Key(s, a) in Lifted(t, s, [a, b], [Reading(fixed, o), Reading(db, o)])
    ensures Key(s, b) !in Lifted(t, s, [a, b], [Reading(fixed, o), Reading(db, o)])
  {
    hide Key;
    assert LiftsAt(t, s, [a, b], [Reading(fixed, o), Reading(db, o)], 0);
  }
}
