/** When does a rollback bring back what ran before? The tagging loop, an arbitrary pull that
    leaves ":rollback" tags alone, and the retag loop, taken together. */
module Rollback {
  import opened Common
  import opened Refs
  import opened Tagging
  import opened Retagging

  /** What the rollback guide presupposes of a deploy cycle: every changed image has an
      inspectable running container, no configured or running tag is itself "rollback",
      and Docker refuses none of the tag calls for these images. */
  ghost predicate Ready(host: string, refused: set<string>, cs: seq<Container>, ch: ImageChange) {
    var prev := Previous(cs, ch);
    && prev.Some?
    && ValidTag(ImageTag(ch.image)) && ImageTag(ch.image) != "rollback"
    && prev.value.configImage != "" && ParseImageRef(prev.value.configImage).1 != "rollback"
    && RollbackRef(host, ch.image) !in refused
    && ComposeRef(host, ch.image) !in refused
    && Canonical(prev.value.configImage) !in refused
  }

  ghost predicate AllReady(host: string, refused: set<string>, cs: seq<Container>, chs: seq<ImageChange>) {
    forall i :: 0 <= i < |chs| ==> Ready(host, refused, cs, chs[i])
  }

  /** The image ID that ran before the deploy. */
  ghost function RunningId(cs: seq<Container>, ch: ImageChange): ImageId
    requires Previous(cs, ch).Some?
  {
    Previous(cs, ch).value.imageId
  }

  /** The image's rollback reference names the ID that ran. */
  ghost predicate TagHolds(tags: Tags, host: string, cs: seq<Container>, ch: ImageChange)
    requires Previous(cs, ch).Some?
  {
    Lookup(tags, RollbackRef(host, ch.image)) == Some(RunningId(cs, ch))
  }

  /** The reference the running container was created from. */
  ghost function RunningRef(cs: seq<Container>, ch: ImageChange): string
    requires Previous(cs, ch).Some?
  {
    Previous(cs, ch).value.configImage
  }

  /** The two references of an image that must name the old ID again. */
  ghost function RefsOf(host: string, cs: seq<Container>, ch: ImageChange): set<string>
    requires Previous(cs, ch).Some?
  {
    {ComposeRef(host, ch.image), Canonical(RunningRef(cs, ch))}
  }

  /** The references the retag loop manages to write for an image. */
  ghost function Written(host: string, cs: seq<Container>, ch: ImageChange): set<string>
    requires Previous(cs, ch).Some?
  {
    {ComposeRef(host, ch.image)} +
    (if ValidTag(ImageTag(RunningRef(cs, ch))) then {Canonical(RunningRef(cs, ch))} else {})
  }

  ghost predicate Restored(tags: Tags, host: string, cs: seq<Container>, ch: ImageChange)
    requires Previous(cs, ch).Some?
  {
    forall r :: r in RefsOf(host, cs, ch) ==> r in tags && tags[r] == RunningId(cs, ch)
  }

  /** A pull may move any tag but the rollback ones. */
  ghost predicate PullKeepsRollbackTags(before: Tags, after: Tags) {
    forall r :: HasSuffix(r, ":rollback") ==> Lookup(after, r) == Lookup(before, r)
  }

  /** Every reference of the image is written, and only on behalf of images with the same ID. */
  ghost predicate Uncontested(host: string, cs: seq<Container>, chs: seq<ImageChange>, ch: ImageChange)
    requires Previous(cs, ch).Some?
    requires forall j :: 0 <= j < |chs| ==> Previous(cs, chs[j]).Some?
  {
    forall r :: r in RefsOf(host, cs, ch) ==>
      && (exists j :: 0 <= j < |chs| && r in Written(host, cs, chs[j]))
      && (forall j :: 0 <= j < |chs| && r in Written(host, cs, chs[j]) ==> RunningId(cs, chs[j]) == RunningId(cs, ch))
  }

  // ---- the tagging loop ----

  lemma {:induction false} PrepareTagsRunning(tags: Tags, refused: set<string>, host: string, cs: seq<Container>,
      chs: seq<ImageChange>, i: nat)
    requires AllReady(host, refused, cs, chs) && i < |chs|
    ensures TagHolds(Prepare(tags, refused, host, cs, chs), host, cs, chs[i])
  {
    hide ImageName, ImageTag, ParseImageRef, Canonical, Prefix, ComposeRef, FirstMatch, ValidTag;
    var n := |chs| - 1;
    RollbackIsValidTag();
    assert Ready(host, refused, cs, chs[n]);
    if RollbackRef(host, chs[i].image) == RollbackRef(host, chs[n].image) {
      SameRollbackRefSameImage(host, chs[i].image, chs[n].image);
    } else {
      assert chs[..n][i] == chs[i];
      PrepareTagsRunning(tags, refused, host, cs, chs[..n], i);
    }
  }

  // ---- the retag loop ----

  /** After the tagging loop the rollback tag of an image names the image ID of the first running container
      that carries it, in Docker's own terms. */
  lemma {:induction false} RollbackTagIsLive(tags: Tags, refused: set<string>, host: string, cs: seq<Container>,
      chs: seq<ImageChange>, i: nat, k: nat)
    requires i < |chs| && k < |cs| && cs[k].state == "running" && cs[k].inspectable
    requires ImageName(cs[k].image) == ImageName(chs[i].image)
          || HasSuffix(ImageName(cs[k].image), "/" + ImageName(chs[i].image))
    requires forall j :: 0 <= j < k && cs[j].state == "running" ==> ImageName(cs[j].image) != ImageName(chs[i].image)
    requires forall j :: 0 <= j < k && cs[j].state == "running" ==>
      !HasSuffix(ImageName(cs[j].image), "/" + ImageName(chs[i].image))
    requires host + "/" + ImageName(chs[i].image) + ":rollback" !in refused
    ensures Lookup(Prepare(tags, refused, host, cs, chs), host + "/" + ImageName(chs[i].image) + ":rollback")
         == Some(cs[k].imageId)
  {
    hide ImageName, HasSuffix, Previous, Canonical, ValidTag;
    var n, r := |chs| - 1, host + "/" + ImageName(chs[i].image) + ":rollback";
    RollbackIsValidTag();
    assert r == RollbackRef(host, chs[i].image);
    if ImageName(chs[n].image) == ImageName(chs[i].image) {
      FirstRunningIsCaptured(cs, chs[n], k);
    } else {
      if RollbackRef(host, chs[n].image) == r { SameRollbackRefSameImage(host, chs[n].image, chs[i].image); }
      assert chs[..n][i] == chs[i];
      RollbackTagIsLive(tags, refused, host, cs, chs[..n], i, k);
    }
  }

  /** What the references of a change are, spelled out for "name:tag". */
  lemma RefsSpelledOut(host: string, name: string, tag: string)
    requires ValidTag(tag)
    ensures ComposeRef(host, name + ":" + tag) == host + "/" + name + ":" + tag
    ensures RollbackRef(host, name + ":" + tag) == host + "/" + name + ":rollback"
  {
    hide ImageName, ImageTag, Canonical;
    CanonicalOfJoin(name, tag);
  }

  /** What restored means: the registry reference, and the reference the container was created from, name
      the image ID of the container that ran. */
  lemma RestoredSpelledOut(tags: Tags, host: string, cs: seq<Container>, ch: ImageChange, name: string, tag: string,
      k: nat, repo: string, runningTag: string)
    requires ValidTag(tag) && ch.image == name + ":" + tag && Previous(cs, ch).Some? && Restored(tags, host, cs, ch)
    requires k < |cs| && cs[k].state == "running"
    requires ImageName(cs[k].image) == name || HasSuffix(ImageName(cs[k].image), "/" + name)
    requires forall j :: 0 <= j < k && cs[j].state == "running" ==>
      ImageName(cs[j].image) != name && !HasSuffix(ImageName(cs[j].image), "/" + name)
    requires ValidTag(runningTag) && cs[k].configImage == repo + ":" + runningTag
    ensures Lookup(tags, host + "/" + name + ":" + tag) == Some(cs[k].imageId)
    ensures Lookup(tags, cs[k].configImage) == Some(cs[k].imageId)
  {
    hide ImageName, ImageTag, Canonical, HasSuffix, Previous, ComposeRef, RollbackRef;
    CanonicalOfJoin(name, tag);
    CanonicalOfJoin(repo, runningTag);
    FirstRunningIsCaptured(cs, ch, k);
    RefsSpelledOut(host, name, tag);
  }

  /** Such a list fits the retag loop: what it writes for an image is Written. */
  lemma ReadyIsSound(host: string, refused: set<string>, cs: seq<Container>, ch: ImageChange)
    requires Ready(host, refused, cs, ch)
    ensures Sound(refused, host, Captured(cs, ch))
    ensures Targets(refused, host, Captured(cs, ch)) == Written(host, cs, ch)
  {
    hide Prefix, ImageName, ImageTag, ParseImageRef, Canonical, Previous, RollbackRef;
    var running := RunningRef(cs, ch);
    CanonicalOfJoin(Prefix(host, ch.image), ImageTag(ch.image));
    RollbackIsValidTag();
    if ValidTag(ImageTag(running)) { CanonicalOfValidTag(running); }
  }

  /** Rollback references are never overwritten by the retag loop. */
  lemma WrittenIsNoRollbackRef(host: string, refused: set<string>, cs: seq<Container>, ch: ImageChange, image: string)
    requires Ready(host, refused, cs, ch)
    ensures RollbackRef(host, image) !in Written(host, cs, ch)
  {
    hide Ready, Sound, Targets, Written, RollbackRef, Captured;
    ReadyIsSound(host, refused, cs, ch);
    NoTargetIsRollbackRef(refused, host, Captured(cs, ch), image);
  }

  ghost function WrittenAll(host: string, cs: seq<Container>, chs: seq<ImageChange>): (ws: seq<set<string>>)
    requires forall j :: 0 <= j < |chs| ==> Previous(cs, chs[j]).Some?
    ensures |ws| == |chs|
  {
    seq(|chs|, i requires 0 <= i < |chs| => Written(host, cs, chs[i]))
  }

  /** After the loop a reference holds the ID of the last change that wrote it, else what the pull left. */
  lemma RetagWrites(tags: Tags, refused: set<string>, host: string, cs: seq<Container>, chs: seq<ImageChange>,
      r: string)
    requires AllReady(host, refused, cs, chs)
    requires forall i :: 0 <= i < |chs| ==> TagHolds(tags, host, cs, chs[i])
    ensures !Retag(tags, refused, host, CapturedAll(cs, chs)).1
    ensures Lookup(Retag(tags, refused, host, CapturedAll(cs, chs)).0, r) ==
            var w := LastWriter(WrittenAll(host, cs, chs), r);
            if w >= 0 then Some(RunningId(cs, chs[w])) else Lookup(tags, r)
  {
    hide Prefix, ImageName, ImageTag, ParseImageRef, Canonical, Previous, RollbackRef, ComposeRef, Sound, Targets,
      Written, Retag;
    var cap := CapturedAll(cs, chs);
    forall i | 0 <= i < |chs|
      ensures Sound(refused, host, cap[i]) && Writers(tags, refused, host, cap)[i] == WrittenAll(host, cs, chs)[i]
    {
      ReadyIsSound(host, refused, cs, chs[i]);
      assert RollbackRef(host, chs[i].image) in tags;
    }
    assert Writers(tags, refused, host, cap) == WrittenAll(host, cs, chs);
    RetagExactly(tags, refused, host, cap, r);
  }

  // ---- images that are not running ----

  /** The tagging loop leaves a rollback reference alone when no image of that name runs. */
  lemma {:induction false} PrepareLeaves(tags: Tags, refused: set<string>, host: string, cs: seq<Container>,
      chs: seq<ImageChange>, image: string)
    requires forall j :: 0 <= j < |chs| && ImageName(chs[j].image) == ImageName(image) ==> Previous(cs, chs[j]).None?
    ensures Lookup(Prepare(tags, refused, host, cs, chs), RollbackRef(host, image))
         == Lookup(tags, RollbackRef(host, image))
  {
    hide ImageName, ImageTag, Prefix, Previous, ValidTag;
    if chs != [] {
      var n := |chs| - 1;
      PrepareLeaves(tags, refused, host, cs, chs[..n], image);
      if RollbackRef(host, chs[n].image) == RollbackRef(host, image) {
        SameRollbackRefSameImage(host, chs[n].image, image);
      }
    }
  }

  ghost predicate NoLaterWriter(refused: set<string>, host: string, cs: seq<Container>, chs: seq<ImageChange>, i: nat)
    requires i < |chs|
  {
    forall j :: i < j < |chs| ==> ComposeRef(host, chs[i].image) !in Targets(refused, host, Captured(cs, chs[j]))
  }

  /** A changed image without a running container is rolled back to whatever ":rollback" an earlier cycle
      left behind, if no later image takes its reference; without such a tag the rollback fails. */
  lemma StaleTagIsRestored(tags: Tags, pulled: Tags, refused: set<string>, host: string, cs: seq<Container>,
      chs: seq<ImageChange>, i: nat)
    requires i < |chs| && AllSound(refused, host, CapturedAll(cs, chs))
    requires forall j :: 0 <= j < |chs| && ImageName(chs[j].image) == ImageName(chs[i].image) ==>
          Previous(cs, chs[j]).None?
    requires PullKeepsRollbackTags(Prepare(tags, refused, host, cs, chs), pulled)
    ensures var stale := Lookup(tags, RollbackRef(host, chs[i].image));
            var (after, failed) := Retag(pulled, refused, host, CapturedAll(cs, chs));
            if stale.None? then failed
            else NoLaterWriter(refused, host, cs, chs, i) ==>
                   Lookup(after, ComposeRef(host, chs[i].image)) == stale
  {
    hide ImageName, ImageTag, Prefix, Previous, ComposeRef, RollbackRef, Sound, Retag, Prepare, Targets, Captured,
      Canonical;
    var cap, r := CapturedAll(cs, chs), ComposeRef(host, chs[i].image);
    PrepareLeaves(tags, refused, host, cs, chs, chs[i].image);
    RollbackRefIsCanonical(host, chs[i].image);
    RetagExactly(pulled, refused, host, cap, r);
    CapturedImages(cs, chs);
    ComposeRefIsTarget(refused, host, cap[i]);
    if Lookup(tags, RollbackRef(host, chs[i].image)).Some? {
      assert r in Writers(pulled, refused, host, cap)[i];
    }
  }

  // ---- the whole cycle ----

  /** Tags after prepare, the pull that left `pulled`, and rollback. */
  ghost function AfterRollback(pulled: Tags, refused: set<string>, host: string, cs: seq<Container>,
      chs: seq<ImageChange>): Tags {
    Retag(pulled, refused, host, CapturedAll(cs, chs)).0
  }

  lemma PullKeepsIds(tags: Tags, pulled: Tags, refused: set<string>, host: string, cs: seq<Container>,
      chs: seq<ImageChange>)
    requires AllReady(host, refused, cs, chs)
    requires PullKeepsRollbackTags(Prepare(tags, refused, host, cs, chs), pulled)
    ensures forall i :: 0 <= i < |chs| ==> TagHolds(pulled, host, cs, chs[i])
  {
    forall i | 0 <= i < |chs|
      ensures Lookup(pulled, RollbackRef(host, chs[i].image)) == Some(RunningId(cs, chs[i]))
    {
      PrepareTagsRunning(tags, refused, host, cs, chs, i);
      RollbackRefIsCanonical(host, chs[i].image);
    }
  }

  ghost predicate RestoresAll(pulled: Tags, refused: set<string>, host: string, cs: seq<Container>,
      chs: seq<ImageChange>)
    requires AllReady(host, refused, cs, chs)
  {
    forall i :: 0 <= i < |chs| ==> Restored(AfterRollback(pulled, refused, host, cs, chs), host, cs, chs[i])
  }

  /** Rollback restores every image after every pull exactly when no image is contested. */
  lemma RollbackRestoresExactly(tags: Tags, refused: set<string>, host: string, cs: seq<Container>,
      chs: seq<ImageChange>)
    requires AllReady(host, refused, cs, chs)
    ensures (forall pulled :: PullKeepsRollbackTags(Prepare(tags, refused, host, cs, chs), pulled)
                ==> RestoresAll(pulled, refused, host, cs, chs))
        <==> (forall i :: 0 <= i < |chs| ==> Uncontested(host, cs, chs, chs[i]))
  {
    var tagged := Prepare(tags, refused, host, cs, chs);
    if forall i :: 0 <= i < |chs| ==> Uncontested(host, cs, chs, chs[i]) {
      forall pulled | PullKeepsRollbackTags(tagged, pulled)
        ensures RestoresAll(pulled, refused, host, cs, chs)
      {
        UncontestedRestores(tags, pulled, refused, host, cs, chs);
      }
    } else {
      var i :| 0 <= i < |chs| && !Uncontested(host, cs, chs, chs[i]);
      var pulled := ContestedFails(tags, refused, host, cs, chs, i);
    }
  }

  lemma UncontestedRestores(tags: Tags, pulled: Tags, refused: set<string>, host: string, cs: seq<Container>,
      chs: seq<ImageChange>)
    requires AllReady(host, refused, cs, chs)
    requires PullKeepsRollbackTags(Prepare(tags, refused, host, cs, chs), pulled)
    requires forall i :: 0 <= i < |chs| ==> Uncontested(host, cs, chs, chs[i])
    ensures RestoresAll(pulled, refused, host, cs, chs)
  {
    hide Uncontested, Restored, Prepare, Retag, CapturedAll;
    PullKeepsIds(tags, pulled, refused, host, cs, chs);
    HeldTagsRestore(pulled, refused, host, cs, chs);
  }

  /** While every rollback tag holds its image's old ID, the retag loop restores uncontested images. */
  lemma HeldTagsRestore(pulled: Tags, refused: set<string>, host: string, cs: seq<Container>, chs: seq<ImageChange>)
    requires AllReady(host, refused, cs, chs)
    requires forall i :: 0 <= i < |chs| ==> TagHolds(pulled, host, cs, chs[i])
    requires forall i :: 0 <= i < |chs| ==> Uncontested(host, cs, chs, chs[i])
    ensures RestoresAll(pulled, refused, host, cs, chs)
  {
    hide Prefix, ImageName, ImageTag, ParseImageRef, Canonical, Previous, ValidTag, RollbackRef, Written, RefsOf,
      Prepare, Retag, CapturedAll;
    var after := AfterRollback(pulled, refused, host, cs, chs);
    forall i | 0 <= i < |chs|
      ensures Restored(after, host, cs, chs[i])
    {
      assert Uncontested(host, cs, chs, chs[i]);
      forall r | r in RefsOf(host, cs, chs[i])
        ensures Lookup(after, r) == Some(RunningId(cs, chs[i]))
      {
        RetagWrites(pulled, refused, host, cs, chs, r);
        var w := LastWriter(WrittenAll(host, cs, chs), r);
        var j :| 0 <= j < |chs| && r in Written(host, cs, chs[j]);
        assert r in WrittenAll(host, cs, chs)[j];
        assert w >= 0 && r in Written(host, cs, chs[w]);
      }
    }
  }

  /** A contested image is left wrong by some pull. */
  lemma ContestedFails(tags: Tags, refused: set<string>, host: string, cs: seq<Container>, chs: seq<ImageChange>,
      i: nat) returns (pulled: Tags)
    requires AllReady(host, refused, cs, chs)
    requires i < |chs| && !Uncontested(host, cs, chs, chs[i])
    ensures PullKeepsRollbackTags(Prepare(tags, refused, host, cs, chs), pulled)
    ensures !RestoresAll(pulled, refused, host, cs, chs)
  {
    hide Prefix, ImageName, ImageTag, ParseImageRef, Canonical, Previous, ValidTag, RollbackRef, ComposeRef, Prepare,
      Retag, CapturedAll;
    var tagged := Prepare(tags, refused, host, cs, chs);
    var r :| r in RefsOf(host, cs, chs[i]) && !(
      && (exists j :: 0 <= j < |chs| && r in Written(host, cs, chs[j]))
      && (forall j :: 0 <= j < |chs| && r in Written(host, cs, chs[j]) ==>
           RunningId(cs, chs[j]) == RunningId(cs, chs[i])));
    if j :| 0 <= j < |chs| && r in Written(host, cs, chs[j]) && RunningId(cs, chs[j]) != RunningId(cs, chs[i]) {
      pulled := tagged;
      assert r in RefsOf(host, cs, chs[j]);
      var after := AfterRollback(pulled, refused, host, cs, chs);
      assert Restored(after, host, cs, chs[i]) ==> !Restored(after, host, cs, chs[j]);
    } else {
      assert r !in Written(host, cs, chs[i]);
      pulled := tagged[r := RunningId(cs, chs[i]) + "'"];
      RunningRefIsNoRollbackRef(host, refused, cs, chs[i]);
      PullKeepsIds(tags, pulled, refused, host, cs, chs);
      RetagWrites(pulled, refused, host, cs, chs, r);
      assert LastWriter(WrittenAll(host, cs, chs), r) < 0;
      assert |pulled[r]| != |RunningId(cs, chs[i])|;
      assert !Restored(AfterRollback(pulled, refused, host, cs, chs), host, cs, chs[i]);
    }
  }

  lemma RunningRefIsNoRollbackRef(host: string, refused: set<string>, cs: seq<Container>, ch: ImageChange)
    requires Ready(host, refused, cs, ch)
    ensures !HasSuffix(Canonical(RunningRef(cs, ch)), ":rollback")
  {
    hide ImageName, ImageTag, LastIndex, Previous, Prefix, RollbackRef, ComposeRef;
    var c, parsed := Canonical(RunningRef(cs, ch)), ParseImageRef(RunningRef(cs, ch));
    DockerTagHasNoColon(RunningRef(cs, ch));
    CutRollbackSuffix(parsed.0, parsed.1);
  }

  lemma DockerTagHasNoColon(ref: string)
    ensures ':' !in ParseImageRef(ref).1
  {
    DockerReading(ref);
  }

  lemma CutRollbackSuffix(repo: string, tag: string)
    requires ':' !in tag && tag != "rollback"
    ensures !HasSuffix(repo + ":" + tag, ":rollback")
  {
    var c := repo + ":" + tag;
    if HasSuffix(c, ":rollback") {
      var head := c[..|c| - 9];
      assert c == head + ":" + "rollback";
      JoinInjective(repo, tag, head, "rollback");
    }
  }

  // ---- when names do not overlap ----

  /** Two names that both end a path are nested in one another. */
  lemma SuffixesNest(path: string, a: string, b: string)
    requires SameOrUnder(path, a) && SameOrUnder(path, b) && |b| <= |a|
    ensures SameOrUnder(a, b)
  {
    assert a == path[|path| - |a|..];
    if |b| < |a| {
      assert ("/" + b) == path[|path| - |b| - 1..] == a[|a| - |b| - 1..];
    } else {
      assert b == path[|path| - |b|..];
    }
  }

  lemma RefsEndInName(host: string, refused: set<string>, cs: seq<Container>, ch: ImageChange, r: string)
    requires Ready(host, refused, cs, ch) && r in RefsOf(host, cs, ch)
    requires ValidTag(ImageTag(RunningRef(cs, ch))) && RunningRef(cs, ch) == Previous(cs, ch).value.image
    ensures SameOrUnder(ImageName(r), ImageName(ch.image))
  {
    hide ImageTag, ParseImageRef, ImageName, Canonical, ValidTag;
    var name, running := ImageName(ch.image), RunningRef(cs, ch);
    CanonicalOfValidTag(running);
    CanonicalOfJoin(ImageName(running), ImageTag(running));
    CanonicalOfJoin(Prefix(host, ch.image), ImageTag(ch.image));
    PathEndsInName(host, ch.image);
  }

  lemma PathEndsInName(host: string, image: string)
    ensures SameOrUnder(Prefix(host, image), ImageName(image))
  {
    hide ImageName;
    assert Prefix(host, image) == host + ("/" + ImageName(image));
    assert (host + ("/" + ImageName(image)))[|host|..] == "/" + ImageName(image);
  }

  /** No two images name their names in one another, and each runs from an explicitly tagged reference. */
  ghost predicate DisjointNames(cs: seq<Container>, chs: seq<ImageChange>)
    requires forall j :: 0 <= j < |chs| ==> Previous(cs, chs[j]).Some?
  {
    && (forall i, j :: 0 <= i < |chs| && 0 <= j < |chs| && i != j ==>
          !SameOrUnder(ImageName(chs[i].image), ImageName(chs[j].image)))
    && (forall i :: 0 <= i < |chs| ==>
          ValidTag(ImageTag(RunningRef(cs, chs[i]))) && RunningRef(cs, chs[i]) == Previous(cs, chs[i]).value.image)
  }

  /** Each reference of an image is written for that image and for no other. */
  ghost predicate Separate(host: string, cs: seq<Container>, chs: seq<ImageChange>)
    requires forall j :: 0 <= j < |chs| ==> Previous(cs, chs[j]).Some?
  {
    forall i, j :: 0 <= i < |chs| && 0 <= j < |chs| ==>
      if i == j then RefsOf(host, cs, chs[i]) <= Written(host, cs, chs[i])
      else RefsOf(host, cs, chs[i]) !! Written(host, cs, chs[j])
  }

  lemma DisjointNamesSeparate(refused: set<string>, host: string, cs: seq<Container>, chs: seq<ImageChange>)
    requires AllReady(host, refused, cs, chs) && DisjointNames(cs, chs)
    ensures Separate(host, cs, chs)
  {
    hide Prefix, ImageName, ImageTag, ParseImageRef, Canonical, Previous, ValidTag, RollbackRef, ComposeRef;
    forall i, j | 0 <= i < |chs| && 0 <= j < |chs| && i != j
      ensures RefsOf(host, cs, chs[i]) !! Written(host, cs, chs[j])
    {
      forall r | r in RefsOf(host, cs, chs[i]) ensures r !in Written(host, cs, chs[j]) {
        if r in Written(host, cs, chs[j]) { NamesShareRef(refused, host, cs, chs[i], chs[j], r); }
      }
    }
  }

  lemma NamesShareRef(refused: set<string>, host: string, cs: seq<Container>, a: ImageChange, b: ImageChange, r: string)
    requires Ready(host, refused, cs, a) && Ready(host, refused, cs, b)
    requires ValidTag(ImageTag(RunningRef(cs, a))) && RunningRef(cs, a) == Previous(cs, a).value.image
    requires ValidTag(ImageTag(RunningRef(cs, b))) && RunningRef(cs, b) == Previous(cs, b).value.image
    requires r in RefsOf(host, cs, a) && r in Written(host, cs, b)
    ensures SameOrUnder(ImageName(a.image), ImageName(b.image)) || SameOrUnder(ImageName(b.image), ImageName(a.image))
  {
    hide Prefix, ImageName, ImageTag, ParseImageRef, Canonical, Previous, ValidTag, ComposeRef, SameOrUnder;
    RefsEndInName(host, refused, cs, a, r);
    RefsEndInName(host, refused, cs, b, r);
    var m, n := ImageName(a.image), ImageName(b.image);
    if |n| <= |m| { SuffixesNest(ImageName(r), m, n); } else { SuffixesNest(ImageName(r), n, m); }
  }

  lemma SeparateIsUncontested(host: string, cs: seq<Container>, chs: seq<ImageChange>)
    requires forall j :: 0 <= j < |chs| ==> Previous(cs, chs[j]).Some?
    requires Separate(host, cs, chs)
    ensures forall i :: 0 <= i < |chs| ==> Uncontested(host, cs, chs, chs[i])
  {
    hide RefsOf, Written, Previous, RunningId;
    forall i, r | 0 <= i < |chs| && r in RefsOf(host, cs, chs[i])
      ensures exists j :: 0 <= j < |chs| && r in Written(host, cs, chs[j])
      ensures forall j :: 0 <= j < |chs| && r in Written(host, cs, chs[j]) ==> j == i
    {
      assert r in Written(host, cs, chs[i]);
    }
  }

  /** Images whose names do not nest, each running from an explicitly tagged reference, are
      restored by every rollback: both references name the old image again and the loop reports no failure. */
  lemma DisjointNamesRestore(tags: Tags, pulled: Tags, refused: set<string>, host: string, cs: seq<Container>,
      chs: seq<ImageChange>)
    requires AllReady(host, refused, cs, chs) && DisjointNames(cs, chs)
    requires PullKeepsRollbackTags(Prepare(tags, refused, host, cs, chs), pulled)
    ensures RestoresAll(pulled, refused, host, cs, chs)
    ensures !Retag(pulled, refused, host, CapturedAll(cs, chs)).1
  {
    hide Separate, DisjointNames, Uncontested, Restored, Prepare, Retag, CapturedAll;
    DisjointNamesSeparate(refused, host, cs, chs);
    SeparateIsUncontested(host, cs, chs);
    UncontestedRestores(tags, pulled, refused, host, cs, chs);
    PullKeepsIds(tags, pulled, refused, host, cs, chs);
    RetagWrites(pulled, refused, host, cs, chs, "");
  }

  /** With separate references the retag loop succeeds and restores every image if and only if every
      rollback tag holds the ID that ran. */
  lemma RestoresIffTagsHold(pulled: Tags, refused: set<string>, host: string, cs: seq<Container>, chs: seq<ImageChange>)
    requires AllReady(host, refused, cs, chs) && Separate(host, cs, chs)
    ensures !Retag(pulled, refused, host, CapturedAll(cs, chs)).1 && RestoresAll(pulled, refused, host, cs, chs)
       <==> forall i :: 0 <= i < |chs| ==> TagHolds(pulled, host, cs, chs[i])
  {
    hide Separate, Uncontested, Restored, Retag, CapturedAll, RollbackRef;
    if forall i :: 0 <= i < |chs| ==> TagHolds(pulled, host, cs, chs[i]) {
      SeparateIsUncontested(host, cs, chs);
      HeldTagsRestore(pulled, refused, host, cs, chs);
      RetagWrites(pulled, refused, host, cs, chs, "");
    }
    forall i | 0 <= i < |chs|
      ensures !Retag(pulled, refused, host, CapturedAll(cs, chs)).1 && RestoresAll(pulled, refused, host, cs, chs) ==>
                Lookup(pulled, RollbackRef(host, chs[i].image)) == Some(RunningId(cs, chs[i]))
    {
      ComposeRefShowsTag(pulled, refused, host, cs, chs, i);
      if RestoresAll(pulled, refused, host, cs, chs) {
        RestoredComposeRef(AfterRollback(pulled, refused, host, cs, chs), host, cs, chs[i]);
      }
    }
  }

  lemma RestoredComposeRef(tags: Tags, host: string, cs: seq<Container>, ch: ImageChange)
    requires Previous(cs, ch).Some? && Restored(tags, host, cs, ch)
    ensures Lookup(tags, ComposeRef(host, ch.image)) == Some(RunningId(cs, ch))
  {
    hide Previous, Canonical, ComposeRef;
  }

  /** After a retag loop without failure the registry reference shows what the rollback tag held. */
  lemma ComposeRefShowsTag(pulled: Tags, refused: set<string>, host: string, cs: seq<Container>,
      chs: seq<ImageChange>, i: nat)
    requires AllReady(host, refused, cs, chs) && Separate(host, cs, chs) && i < |chs|
    ensures !Retag(pulled, refused, host, CapturedAll(cs, chs)).1 ==>
              Lookup(AfterRollback(pulled, refused, host, cs, chs), ComposeRef(host, chs[i].image))
                == Lookup(pulled, RollbackRef(host, chs[i].image))
  {
    hide Prefix, ImageName, ImageTag, ParseImageRef, Canonical, Previous, RollbackRef, ComposeRef, Sound, Targets,
      Retag, Captured;
    var cap, r := CapturedAll(cs, chs), ComposeRef(host, chs[i].image);
    forall j | 0 <= j < |chs|
      ensures Sound(refused, host, cap[j]) && Targets(refused, host, cap[j]) == Written(host, cs, chs[j])
    {
      assert Ready(host, refused, cs, chs[j]);
      ReadyIsSound(host, refused, cs, chs[j]);
    }
    CapturedImages(cs, chs);
    assert r in RefsOf(host, cs, chs[i]) && r in Written(host, cs, chs[i]);
    forall j | 0 <= j < |chs| && j != i ensures r !in Written(host, cs, chs[j]) {
      assert RefsOf(host, cs, chs[i]) !! Written(host, cs, chs[j]);
    }
    RetagExactly(pulled, refused, host, cap, r);
    if !Retag(pulled, refused, host, cap).1 {
      var ws := Writers(pulled, refused, host, cap);
      assert forall j :: 0 <= j < |chs| ==> RollbackRef(host, cap[j].image) in pulled;
      assert forall j :: 0 <= j < |chs| ==> ws[j] == Written(host, cs, chs[j]);
      assert r in ws[i];
      assert LastWriter(ws, r) == i;
    }
  }

  lemma CapturedImages(cs: seq<Container>, chs: seq<ImageChange>)
    ensures forall j :: 0 <= j < |chs| ==> CapturedAll(cs, chs)[j].image == chs[j].image
  {
    hide Previous;
  }

  /** A container that Docker files under the image's registry repository is found exactly when its
      reference has no colon or is tagged. An untagged reference to a registry with a port is cut at the
      port, and then matches only if the host without its port happens to end in the image name. */
  lemma OwnContainerIsFound(host: string, image: string, c: Container)
    requires c.state == "running" && ':' !in ImageName(image)
    requires ParseImageRef(c.image).0 == Prefix(host, image)
    ensures Matches(c, ImageName(image))
        <==> ColonAfterSlash(c.image) || SameOrUnder(ImageName(host), ImageName(image))
  {
    PathEndsInName(host, image);
    DockerReading(c.image);
    if !ColonAfterSlash(c.image) {
      ColonOfPath(host, ImageName(image));
    }
  }

  lemma ColonOfPath(host: string, name: string)
    requires ':' !in name && ':' in host
    ensures ImageName(host + "/" + name) == ImageName(host)
  {
    var path, i := host + "/" + name, LastIndex(host, ':');
    var k :| 0 <= k < |host| && host[k] == ':';
    assert forall n :: |host| < n < |path| ==> path[n] == name[n - |host| - 1];
    assert path[i] == ':' && path[..i] == host[..i];
    assert LastIndex(path, ':') == i;
  }
}
