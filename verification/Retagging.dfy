/** The retag loop of a rollback on any list of changes: which references it writes, with which IDs, and
    when it fails. */
module Retagging {
  import opened Common
  import opened Refs
  import opened Tagging

  lemma RollbackIsValidTag()
    ensures ValidTag("rollback")
  {}

  lemma PrefixInjective(host: string, a: string, b: string)
    requires Prefix(host, a) == Prefix(host, b)
    ensures ImageName(a) == ImageName(b)
  {
    hide ImageName;
    assert Prefix(host, a)[|host| + 1..] == ImageName(a);
    assert Prefix(host, b)[|host| + 1..] == ImageName(b);
  }

  lemma SameRollbackRefSameImage(host: string, a: string, b: string)
    requires RollbackRef(host, a) == RollbackRef(host, b)
    ensures ImageName(a) == ImageName(b)
  {
    hide ImageName, Prefix;
    RollbackIsValidTag();
    JoinInjective(Prefix(host, a), "rollback", Prefix(host, b), "rollback");
    PrefixInjective(host, a, b);
  }

  lemma RollbackRefIsCanonical(host: string, image: string)
    ensures Canonical(RollbackRef(host, image)) == RollbackRef(host, image)
    ensures HasSuffix(RollbackRef(host, image), ":rollback")
  {
    hide Canonical, Prefix, ImageName, ImageTag, ValidTag;
    RollbackIsValidTag();
    var p := Prefix(host, image);
    CanonicalOfJoin(p, "rollback");
    assert RollbackRef(host, image) == p + ":rollback";
    assert (p + ":rollback")[|p|..] == ":rollback";
  }

  lemma CanonicalOfValidTag(ref: string)
    requires ValidTag(ImageTag(ref))
    ensures Canonical(ref) == ImageName(ref) + ":" + ImageTag(ref)
    ensures ParseImageRef(ref).1 == ImageTag(ref)
  {
    var colon, slash := LastIndex(ref, ':'), LastIndex(ref, '/');
    assert colon >= 0 ==> ImageTag(ref) == ref[colon + 1..];
    assert colon >= 0 ==> ref[colon] == ':';
    assert forall k :: 0 <= colon < k < |ref| ==> ref[colon + 1..][k - colon - 1] == ref[k];
    assert ColonAfterSlash(ref);
    ParsersAgree(ref);
  }

  /** The registry tag can be written and neither reference is itself a rollback reference. */
  ghost predicate Sound(refused: set<string>, host: string, ch: ImageChange) {
    && ValidTag(ImageTag(ch.image)) && ImageTag(ch.image) != "rollback"
    && ComposeRef(host, ch.image) !in refused
    && ImageTag(ch.oldRef) != "rollback"
  }

  ghost predicate AllSound(refused: set<string>, host: string, chs: seq<ImageChange>) {
    forall i :: 0 <= i < |chs| ==> Sound(refused, host, chs[i])
  }

  ghost function OldTarget(ch: ImageChange): string { ImageName(ch.oldRef) + ":" + ImageTag(ch.oldRef) }

  /** The references the loop can write for a change: the registry one, and the captured one if it is
      another, tagged validly, and not refused. */
  ghost function Targets(refused: set<string>, host: string, ch: ImageChange): set<string> {
    {ComposeRef(host, ch.image)} +
    (if ch.oldRef != "" && ch.oldRef != ComposeRef(host, ch.image)
        && ValidTag(ImageTag(ch.oldRef)) && OldTarget(ch) !in refused
     then {OldTarget(ch)} else {})
  }

  lemma ComposeRefIsTarget(refused: set<string>, host: string, ch: ImageChange)
    ensures ComposeRef(host, ch.image) in Targets(refused, host, ch)
  {}

  lemma NoTargetIsRollbackRef(refused: set<string>, host: string, ch: ImageChange, image: string)
    requires Sound(refused, host, ch)
    ensures RollbackRef(host, image) !in Targets(refused, host, ch)
  {
    hide Prefix, ImageName, ImageTag;
    RollbackIsValidTag();
    SplitInvertsJoin(Prefix(host, ch.image), ImageTag(ch.image));
    SplitInvertsJoin(ImageName(ch.oldRef), ImageTag(ch.oldRef));
    SplitInvertsJoin(Prefix(host, image), "rollback");
  }

  /** One pass gives every target the ID of the change's rollback tag, or fails and changes nothing. */
  lemma RetagPass(tags: Tags, refused: set<string>, host: string, ch: ImageChange, r: string)
    requires Sound(refused, host, ch)
    ensures var id := Lookup(tags, RollbackRef(host, ch.image));
            var mid := RetagOldRef(tags, refused, host, ch);
            var answer := RetagRegistry(mid, refused, host, ch);
            && (answer.None? <==> id.None?)
            && Lookup(OrSame(mid, answer), r) ==
                 if id.Some? && r in Targets(refused, host, ch) then id else Lookup(tags, r)
  {
    hide Prefix, ImageName, ImageTag, Canonical, ValidTag, RollbackRef;
    RollbackRefIsCanonical(host, ch.image);
    NoTargetIsRollbackRef(refused, host, ch, ch.image);
  }

  /** Index of the last set that holds `r`, or -1. */
  ghost function LastWriter(ws: seq<set<string>>, r: string): (w: int)
    ensures -1 <= w < |ws|
    ensures w >= 0 ==> r in ws[w]
    ensures forall j :: w < j < |ws| ==> r !in ws[j]
  {
    if ws == [] then -1
    else if r in ws[|ws| - 1] then |ws| - 1
    else LastWriter(ws[..|ws| - 1], r)
  }

  /** What each change writes: its targets if it has a rollback tag, nothing otherwise. */
  ghost function Writers(tags: Tags, refused: set<string>, host: string, chs: seq<ImageChange>): (ws: seq<set<string>>)
    ensures |ws| == |chs|
  {
    seq(|chs|, i requires 0 <= i < |chs| =>
      if RollbackRef(host, chs[i].image) in tags then Targets(refused, host, chs[i]) else {})
  }

  /** The loop leaves every rollback reference as it is. */
  lemma {:induction false} RetagKeepsRollbackRefs(tags: Tags, refused: set<string>, host: string,
      chs: seq<ImageChange>, image: string)
    requires AllSound(refused, host, chs)
    ensures Lookup(Retag(tags, refused, host, chs).0, RollbackRef(host, image)) ==
          Lookup(tags, RollbackRef(host, image))
  {
    hide RollbackRef, RetagOldRef, RetagRegistry, Targets, Sound;
    if chs != [] {
      var n := |chs| - 1;
      RetagKeepsRollbackRefs(tags, refused, host, chs[..n], image);
      NoTargetIsRollbackRef(refused, host, chs[n], image);
      RetagPass(Retag(tags, refused, host, chs[..n]).0, refused, host, chs[n], RollbackRef(host, image));
    }
  }

  /** The loop fails if and only if some change has no rollback tag; a reference ends up with the ID of the
      rollback tag of the last change that wrote it, and is untouched if none did. */
  lemma {:induction false} RetagExactly(tags: Tags, refused: set<string>, host: string, chs: seq<ImageChange>,
      r: string)
    requires AllSound(refused, host, chs)
    ensures Retag(tags, refused, host, chs).1
       <==> exists i :: 0 <= i < |chs| && RollbackRef(host, chs[i].image) !in tags
    ensures Lookup(Retag(tags, refused, host, chs).0, r) ==
            var w := LastWriter(Writers(tags, refused, host, chs), r);
            if w >= 0 then Lookup(tags, RollbackRef(host, chs[w].image)) else Lookup(tags, r)
  {
    hide RollbackRef, RetagOldRef, RetagRegistry, Targets, Sound;
    if chs != [] {
      var n := |chs| - 1;
      var before := Retag(tags, refused, host, chs[..n]).0;
      assert Writers(tags, refused, host, chs)[..n] == Writers(tags, refused, host, chs[..n]);
      assert forall j :: 0 <= j < n ==> chs[..n][j] == chs[j];
      RetagExactly(tags, refused, host, chs[..n], r);
      RetagKeepsRollbackRefs(tags, refused, host, chs[..n], chs[n].image);
      RetagPass(before, refused, host, chs[n], r);
    }
  }
}
