/** Rollback references carry no service name, and deploy cycles of different services overlap: all cycles of
    all services over one tag store, in any interleaving. */
module SharedTags {
  import opened Common
  import opened Refs
  import opened Tagging
  import opened Retagging
  import opened Rollback
  import opened DeployCycle

  /** The registry host, and what Docker refuses to write and to remove. */
  datatype Rules = Rules(host: string, refused: set<string>, pinned: set<string>)

  /** A guarded deploy tags what runs; a pull or anybody else changes the tags; a deploy fails or succeeds
      its verification, with the list of changes its tagging loop left. */
  datatype Event =
    | Starts(containers: seq<Container>, changed: seq<ImageChange>)
    | Outside(tags: Tags)
    | RollsBack(changed: seq<ImageChange>, upOk: bool)
    | Succeeds(changed: seq<ImageChange>)

  function Step(rules: Rules, tags: Tags, e: Event): Tags {
    match e
    case Starts(cs, chs) => Prepare(tags, rules.refused, rules.host, cs, chs)
    case Outside(after) => after
    case RollsBack(chs, upOk) =>
      var (after, failed) := Retag(tags, rules.refused, rules.host, chs);
      if failed || !upOk then after else CleanupRollbacks(after, rules.pinned, rules.host, chs)
    case Succeeds(chs) => CleanupRollbacks(tags, rules.pinned, rules.host, chs)
  }

  function Run(rules: Rules, tags: Tags, es: seq<Event>): Tags {
    if es == [] then tags else Step(rules, Run(rules, tags, es[..|es| - 1]), es[|es| - 1])
  }

  lemma RunStep(rules: Rules, tags: Tags, es: seq<Event>, k: nat)
    requires k < |es|
    ensures Run(rules, tags, es[..k + 1]) == Step(rules, Run(rules, tags, es[..k]), es[k])
  {
    assert es[..k + 1][..k] == es[..k];
  }

  /** Nobody else moves rollback tags, and no configured tag is itself "rollback". */
  ghost predicate Fair(rules: Rules, tags: Tags, e: Event) {
    match e
    case Outside(after) => PullKeepsRollbackTags(tags, after)
    case RollsBack(chs, _) => AllSound(rules.refused, rules.host, chs)
    case _ => true
  }

  ghost predicate AllFair(rules: Rules, tags: Tags, es: seq<Event>) {
    forall k :: 0 <= k < |es| ==> Fair(rules, Run(rules, tags, es[..k]), es[k])
  }

  // ---- one step on one rollback reference ----

  /** The image ID that the tagging loop leaves under the reference, if it tags it. */
  ghost function LastTagged(rules: Rules, cs: seq<Container>, chs: seq<ImageChange>, r: string): Option<ImageId> {
    if chs == [] then None
    else
      var n := |chs| - 1;
      if Previous(cs, chs[n]).Some? && r == RollbackRef(rules.host, chs[n].image) && r !in rules.refused
      then Some(Previous(cs, chs[n]).value.imageId)
      else LastTagged(rules, cs, chs[..n], r)
  }

  lemma {:induction false} PrepareExactly(tags: Tags, rules: Rules, cs: seq<Container>, chs: seq<ImageChange>,
      r: string)
    ensures Lookup(Prepare(tags, rules.refused, rules.host, cs, chs), r) ==
            var tagged := LastTagged(rules, cs, chs, r);
            if tagged.Some? then tagged else Lookup(tags, r)
  {
    hide Prefix, Previous, Canonical, ValidTag;
    RollbackIsValidTag();
    if chs != [] { PrepareExactly(tags, rules, cs, chs[..|chs| - 1], r); }
  }

  /** The event tags the reference with this ID. */
  ghost function Tagged(rules: Rules, e: Event, r: string): Option<ImageId> {
    match e
    case Starts(cs, chs) => LastTagged(rules, cs, chs, r)
    case _ => None
  }

  ghost predicate RefersTo(rules: Rules, chs: seq<ImageChange>, r: string) {
    exists i :: 0 <= i < |chs| && r == RollbackRef(rules.host, chs[i].image)
  }

  /** The event's cleanup removes the reference. */
  ghost predicate Removes(rules: Rules, tags: Tags, e: Event, r: string) {
    match e
    case RollsBack(chs, upOk) =>
      upOk && !Retag(tags, rules.refused, rules.host, chs).1 && r !in rules.pinned && RefersTo(rules, chs, r)
    case Succeeds(chs) => r !in rules.pinned && RefersTo(rules, chs, r)
    case _ => false
  }

  ghost predicate Touches(rules: Rules, tags: Tags, e: Event, r: string) {
    Tagged(rules, e, r).Some? || Removes(rules, tags, e, r)
  }

  lemma StepOnRollbackRef(rules: Rules, tags: Tags, e: Event, image: string)
    requires Fair(rules, tags, e)
    ensures var r := RollbackRef(rules.host, image);
            Lookup(Step(rules, tags, e), r) ==
              if Tagged(rules, e, r).Some? then Tagged(rules, e, r)
              else if Removes(rules, tags, e, r) then None
              else Lookup(tags, r)
  {
    hide RollbackRef, Prepare, Retag, CleanupRollbacks, LastTagged, Sound;
    var r := RollbackRef(rules.host, image);
    match e {
      case Starts(cs, chs) => PrepareExactly(tags, rules, cs, chs, r);
      case Outside(after) => RollbackRefIsCanonical(rules.host, image);
      case RollsBack(chs, upOk) =>
        RetagKeepsRollbackRefs(tags, rules.refused, rules.host, chs, image);
        CleanupExactly(Retag(tags, rules.refused, rules.host, chs).0, rules.pinned, rules.host, chs, r);
      case Succeeds(chs) => CleanupExactly(tags, rules.pinned, rules.host, chs, r);
    }
  }

  // ---- whole runs ----

  /** The last event from k on, before m, that touched the reference tagged it with this ID. */
  ghost predicate LastTouchTags(rules: Rules, tags: Tags, es: seq<Event>, k: nat, m: nat, r: string, id: ImageId)
    requires m <= |es|
  {
    exists j: nat :: k <= j < m && Tagged(rules, es[j], r) == Some(id) && Untouched(rules, tags, es, j + 1, m, r)
  }

  ghost predicate Untouched(rules: Rules, tags: Tags, es: seq<Event>, j: nat, m: nat, r: string)
    requires m <= |es|
  {
    forall l :: j <= l < m ==> !Touches(rules, Run(rules, tags, es[..l]), es[l], r)
  }

  /** Once tagged at k, a rollback reference holds an ID at m exactly when the last touch since tagged it so. */
  lemma {:induction false} HeldExactly(rules: Rules, tags: Tags, es: seq<Event>, k: nat, m: nat, image: string,
      id: ImageId)
    requires AllFair(rules, tags, es) && k < m <= |es| && Tagged(rules, es[k], RollbackRef(rules.host, image)).Some?
    ensures Lookup(Run(rules, tags, es[..m]), RollbackRef(rules.host, image)) == Some(id)
       <==> LastTouchTags(rules, tags, es, k, m, RollbackRef(rules.host, image), id)
    decreases m
  {
    hide Run, Step, Fair, Tagged, Removes, RollbackRef;
    var r, n := RollbackRef(rules.host, image), m - 1;
    RunStep(rules, tags, es, n);
    StepOnRollbackRef(rules, Run(rules, tags, es[..n]), es[n], image);
    assert Untouched(rules, tags, es, m, m, r);
    forall j: nat | j < m
      ensures Untouched(rules, tags, es, j, m, r) <==>
                Untouched(rules, tags, es, j, n, r) && !Touches(rules, Run(rules, tags, es[..n]), es[n], r)
    {}
    if k < n {
      HeldExactly(rules, tags, es, k, n, image, id);
      if LastTouchTags(rules, tags, es, k, n, r, id) && !Touches(rules, Run(rules, tags, es[..n]), es[n], r) {
        var j: nat :| k <= j < n && Tagged(rules, es[j], r) == Some(id) && Untouched(rules, tags, es, j + 1, n, r);
        assert Untouched(rules, tags, es, j + 1, m, r);
      }
    }
  }

  /** The images were brought back: the retag loop succeeded and after it both references of every image name
      what ran before. */
  ghost predicate BringsBack(rules: Rules, tags: Tags, e: Event, cs: seq<Container>, chs: seq<ImageChange>)
    requires e.RollsBack?
  {
    !Retag(tags, rules.refused, rules.host, e.changed).1 && AllRestored(Step(rules, tags, e), rules.host, cs, chs)
  }

  lemma BringsBackIffTagsHold(rules: Rules, tags: Tags, e: Event, cs: seq<Container>, chs: seq<ImageChange>)
    requires AllReady(rules.host, rules.refused, cs, chs) && Separate(rules.host, cs, chs)
    requires e.RollsBack? && e.changed == CapturedAll(cs, chs)
    ensures BringsBack(rules, tags, e, cs, chs) <==>
              forall i :: 0 <= i < |chs| ==> TagHolds(tags, rules.host, cs, chs[i])
  {
    hide Separate, Restored, Retag, CapturedAll, CleanupRollbacks, RollbackRef, Previous, RunningId;
    RestoresIffTagsHold(tags, rules.refused, rules.host, cs, chs);
    var after := Retag(tags, rules.refused, rules.host, e.changed).0;
    forall i | 0 <= i < |chs|
      ensures Restored(CleanupRollbacks(after, rules.pinned, rules.host, e.changed), rules.host, cs, chs[i])
         <==> Restored(after, rules.host, cs, chs[i])
    {
      CleanupKeepsRestored(after, rules.refused, rules.pinned, rules.host, cs, chs, chs[i]);
    }
  }

  /** A started cycle tags every image that is ready. */
  lemma StartTags(rules: Rules, cs: seq<Container>, chs: seq<ImageChange>, i: nat)
    requires AllReady(rules.host, rules.refused, cs, chs) && i < |chs|
    ensures LastTagged(rules, cs, chs, RollbackRef(rules.host, chs[i].image)) == Some(RunningId(cs, chs[i]))
  {
    hide Prepare, RollbackRef, LastTagged, Previous, RunningId;
    PrepareTagsRunning(map[], rules.refused, rules.host, cs, chs, i);
    PrepareExactly(map[], rules, cs, chs, RollbackRef(rules.host, chs[i].image));
  }

  /** In any interleaving of deploy cycles a rollback brings its images back if and only if, for each of them,
      the last event since its own start that tagged or removed the rollback reference tagged it with the ID
      that ran: its own start, or another cycle that found the same image running. */
  lemma RollbackRestoresInRuns(rules: Rules, tags: Tags, es: seq<Event>, k: nat, m: nat, cs: seq<Container>,
      chs: seq<ImageChange>)
    requires AllFair(rules, tags, es) && k < m < |es|
    requires AllReady(rules.host, rules.refused, cs, chs) && Separate(rules.host, cs, chs)
    requires es[k] == Starts(cs, chs) && es[m].RollsBack? && es[m].changed == CapturedAll(cs, chs)
    ensures BringsBack(rules, Run(rules, tags, es[..m]), es[m], cs, chs) <==>
              forall i :: 0 <= i < |chs| ==>
                LastTouchTags(rules, tags, es, k, m, RollbackRef(rules.host, chs[i].image), RunningId(cs, chs[i]))
  {
    hide Run, RollbackRef, Separate, BringsBack, LastTouchTags, AllFair, LastTagged, Previous, RunningId, CapturedAll;
    BringsBackIffTagsHold(rules, Run(rules, tags, es[..m]), es[m], cs, chs);
    forall i | 0 <= i < |chs|
      ensures Lookup(Run(rules, tags, es[..m]), RollbackRef(rules.host, chs[i].image)) == Some(RunningId(cs, chs[i]))
         <==> LastTouchTags(rules, tags, es, k, m, RollbackRef(rules.host, chs[i].image), RunningId(cs, chs[i]))
    {
      StartTags(rules, cs, chs, i);
      HeldExactly(rules, tags, es, k, m, chs[i].image, RunningId(cs, chs[i]));
    }
  }

  /** One service starts, then another with an image of the same name, then the first rolls back. */
  ghost function SharedRun(cs1: seq<Container>, a: ImageChange, cs2: seq<Container>, b: ImageChange,
      upOk: bool): seq<Event> {
    [Starts(cs1, [a]), Starts(cs2, [b]), RollsBack(CapturedAll(cs1, [a]), upOk)]
  }

  lemma SecondStartTags(rules: Rules, tags: Tags, cs1: seq<Container>, a: ImageChange, cs2: seq<Container>,
      b: ImageChange, upOk: bool)
    requires Ready(rules.host, rules.refused, cs1, a) && Ready(rules.host, rules.refused, cs2, b)
    requires ImageName(a.image) == ImageName(b.image)
    ensures var es := SharedRun(cs1, a, cs2, b, upOk);
            && AllFair(rules, tags, es)
            && Lookup(Run(rules, tags, es[..2]), RollbackRef(rules.host, a.image)) == Some(RunningId(cs2, b))
  {
    hide ImageName, Prepare, Previous, Captured, Sound, Run, Step;
    var es := SharedRun(cs1, a, cs2, b, upOk);
    assert RollbackRef(rules.host, a.image) == RollbackRef(rules.host, b.image) && [b][0] == b;
    RunStep(rules, tags, es, 1);
    StartsIsPrepare(rules, Run(rules, tags, es[..1]), cs2, [b]);
    PrepareTagsRunning(Run(rules, tags, es[..1]), rules.refused, rules.host, cs2, [b], 0);
    ReadyIsSound(rules.host, rules.refused, cs1, a);
    assert AllSound(rules.refused, rules.host, es[2].changed);
  }

  lemma StartsIsPrepare(rules: Rules, tags: Tags, cs: seq<Container>, chs: seq<ImageChange>)
    ensures Step(rules, tags, Starts(cs, chs)) == Prepare(tags, rules.refused, rules.host, cs, chs)
  {}

  /** Two services deploy images of the same name: the second start moves the shared rollback tag, and the
      first service's rollback then installs the second one's image, without reporting a failure. */
  lemma OtherServiceTakesTag(rules: Rules, tags: Tags, cs1: seq<Container>, a: ImageChange,
                             cs2: seq<Container>, b: ImageChange, upOk: bool)
    requires Ready(rules.host, rules.refused, cs1, a) && Ready(rules.host, rules.refused, cs2, b)
    requires ImageName(a.image) == ImageName(b.image) && RunningId(cs1, a) != RunningId(cs2, b)
    requires Separate(rules.host, cs1, [a])
    ensures var es := SharedRun(cs1, a, cs2, b, upOk);
            var t := Run(rules, tags, es[..2]);
            && AllFair(rules, tags, es)
            && !Retag(t, rules.refused, rules.host, es[2].changed).1
            && Lookup(Step(rules, t, es[2]), ComposeRef(rules.host, a.image)) == Some(RunningId(cs2, b))
            && !BringsBack(rules, t, es[2], cs1, [a])
  {
    hide Prefix, ImageName, Separate, Prepare, Previous, Retag, Captured, CleanupRollbacks, BringsBack, Run;
    var es := SharedRun(cs1, a, cs2, b, upOk);
    var t := Run(rules, tags, es[..2]);
    SecondStartTags(rules, tags, cs1, a, cs2, b, upOk);
    OneImageRetag(rules, t, cs1, a);
    ComposeRefShowsTag(t, rules.refused, rules.host, cs1, [a], 0);
    BringsBackIffTagsHold(rules, t, es[2], cs1, [a]);
    ComposeRefSurvivesCleanup(rules, AfterRollback(t, rules.refused, rules.host, cs1, [a]), cs1, a);
  }

  lemma OneImageRetag(rules: Rules, tags: Tags, cs: seq<Container>, a: ImageChange)
    requires Ready(rules.host, rules.refused, cs, a) && RollbackRef(rules.host, a.image) in tags
    ensures !Retag(tags, rules.refused, rules.host, CapturedAll(cs, [a])).1
  {
    hide RollbackRef, Ready, Previous, Captured, Sound, Retag;
    CapturedImages(cs, [a]);
    ReadyIsSound(rules.host, rules.refused, cs, a);
    RetagExactly(tags, rules.refused, rules.host, CapturedAll(cs, [a]), "");
  }

  lemma ComposeRefSurvivesCleanup(rules: Rules, tags: Tags, cs: seq<Container>, a: ImageChange)
    requires Ready(rules.host, rules.refused, cs, a)
    ensures var after := CleanupRollbacks(tags, rules.pinned, rules.host, CapturedAll(cs, [a]));
            Lookup(after, ComposeRef(rules.host, a.image)) == Lookup(tags, ComposeRef(rules.host, a.image))
  {
    hide RollbackRef, ComposeRef, Previous, Canonical, CapturedAll;
    var chs, r := CapturedAll(cs, [a]), ComposeRef(rules.host, a.image);
    forall i | 0 <= i < |chs| ensures r != RollbackRef(rules.host, chs[i].image) {
      RefIsNoRollbackRef(rules.host, rules.refused, cs, a, r, chs[i].image);
    }
    CleanupExactly(tags, rules.pinned, rules.host, chs, r);
  }
}
