/** The tag arithmetic of a deploy: the running images are tagged ":rollback" before the pull,
    and a failed deploy tags them back. Docker's tag store is a map from canonical
    references to image IDs. */
module Tagging {
  import opened Common
  import opened Refs

  type ImageId = string
  type Tags = map<string, ImageId>

  /** A container as the project listing shows it, with what inspecting it would return. */
  datatype Container = Container(state: string, image: string, inspectable: bool, configImage: string, imageId: ImageId)

  /** A digest transition of one image within a deploy cycle. */
  datatype ImageChange = ImageChange(image: string, oldDigest: string, newDigest: string, oldRef: string)

  /** TagImage names its source by image ID or by reference. */
  datatype Source = ById(id: ImageId) | ByRef(ref: string)

  function Resolve(tags: Tags, src: Source): Option<ImageId> {
    match src
    case ById(id) => Some(id)
    case ByRef(ref) => Lookup(tags, Canonical(ref))
  }

  /** Docker answers a tag call unless the tag is malformed, the source is unknown, or the
      call itself fails for this target. */
  function TagCall(tags: Tags, refused: set<string>, src: Source, repo: string, tag: string): Option<Tags> {
    var id := Resolve(tags, src);
    if ValidTag(tag) && id.Some? && repo + ":" + tag !in refused then Some(tags[repo + ":" + tag := id.value])
    else None
  }

  function OrSame(tags: Tags, answer: Option<Tags>): Tags {
    if answer.Some? then answer.value else tags
  }

  function Prefix(host: string, image: string): string { host + "/" + ImageName(image) }

  /** The registry-prefixed reference of a configured image, and its rollback twin. */
  function ComposeRef(host: string, image: string): string { Prefix(host, image) + ":" + ImageTag(image) }

  function RollbackRef(host: string, image: string): string { Prefix(host, image) + ":" + "rollback" }

  predicate SameOrUnder(path: string, name: string) { path == name || HasSuffix(path, "/" + name) }

  predicate Matches(c: Container, name: string) {
    c.state == "running" && SameOrUnder(ImageName(c.image), name)
  }

  /** Index of the first running container that carries the image name, or -1. */
  function FirstMatch(cs: seq<Container>, name: string): (m: int)
    ensures -1 <= m < |cs|
    ensures m >= 0 ==> Matches(cs[m], name)
    ensures forall k :: 0 <= k < (if m >= 0 then m else |cs|) ==> !Matches(cs[k], name)
  {
    hide SameOrUnder;
    if cs == [] then -1
    else
      var m := FirstMatch(cs[..|cs| - 1], name);
      if m >= 0 then m else if Matches(cs[|cs| - 1], name) then |cs| - 1 else -1
  }

  /** The container whose image a change is rolled back to, if it can be inspected. */
  function Previous(cs: seq<Container>, ch: ImageChange): Option<Container> {
    var m := FirstMatch(cs, ImageName(ch.image));
    if m >= 0 && cs[m].inspectable then Some(cs[m]) else None
  }

  function Captured(cs: seq<Container>, ch: ImageChange): ImageChange {
    if Previous(cs, ch).Some? then ch.(oldRef := Previous(cs, ch).value.configImage) else ch
  }

  function CapturedAll(cs: seq<Container>, chs: seq<ImageChange>): (r: seq<ImageChange>)
    ensures |r| == |chs|
  {
    seq(|chs|, i requires 0 <= i < |chs| => Captured(cs, chs[i]))
  }

  /** Tags after the loop that runs before the pull. */
  function Prepare(tags: Tags, refused: set<string>, host: string, cs: seq<Container>, chs: seq<ImageChange>): Tags {
    if chs == [] then tags
    else
      var n := |chs| - 1;
      var before := Prepare(tags, refused, host, cs, chs[..n]);
      var prev := Previous(cs, chs[n]);
      if prev.None? then before
      else OrSame(before, TagCall(before, refused, ById(prev.value.imageId), Prefix(host, chs[n].image), "rollback"))
  }

  /** The retag to the captured compose reference, when it differs from the registry one. */
  function RetagOldRef(tags: Tags, refused: set<string>, host: string, ch: ImageChange): Tags {
    if ch.oldRef != "" && ch.oldRef != ComposeRef(host, ch.image) then
      OrSame(tags, TagCall(tags, refused, ByRef(RollbackRef(host, ch.image)), ImageName(ch.oldRef),
          ImageTag(ch.oldRef)))
    else tags
  }

  function RetagRegistry(tags: Tags, refused: set<string>, host: string, ch: ImageChange): Option<Tags> {
    TagCall(tags, refused, ByRef(RollbackRef(host, ch.image)), Prefix(host, ch.image), ImageTag(ch.image))
  }

  /** Tags after the rollback loop, and whether it reports a failure. */
  function Retag(tags: Tags, refused: set<string>, host: string, chs: seq<ImageChange>): (Tags, bool) {
    if chs == [] then (tags, false)
    else
      var n := |chs| - 1;
      var (before, failed) := Retag(tags, refused, host, chs[..n]);
      var mid := RetagOldRef(before, refused, host, chs[n]);
      var answer := RetagRegistry(mid, refused, host, chs[n]);
      (OrSame(mid, answer), failed || answer.None?)
  }

  /** Docker's tag store, changed in place by tag calls. */
  class Docker {
    var tags: Tags
    /** Targets Docker refuses to write, and references it refuses to remove. */
    const refused: set<string>
    const pinned: set<string>

    constructor (tags: Tags, refused: set<string>, pinned: set<string>)
      ensures this.tags == tags && this.refused == refused && this.pinned == pinned
    {
      this.tags, this.refused, this.pinned := tags, refused, pinned;
    }

    method RemoveImage(ref: string) returns (ok: bool)
      modifies this
      ensures ok == (ref in old(tags) && ref !in pinned)
      ensures tags == if ok then old(tags) - {ref} else old(tags)
    {
      ok := ref in tags && ref !in pinned;
      if ok { tags := tags - {ref}; }
    }

    method TagImage(src: Source, repo: string, tag: string) returns (ok: bool)
      modifies this
      ensures var answer := TagCall(old(tags), refused, src, repo, tag);
              ok == answer.Some? && tags == OrSame(old(tags), answer)
    {
      var id: Option<ImageId>;
      match src {
        case ById(i) => id := Some(i);
        case ByRef(ref) => id := Lookup(tags, Canonical(ref));
      }
      ok := ValidTag(tag) && id.Some? && repo + ":" + tag !in refused;
      if ok {
        tags := tags[repo + ":" + tag := id.value];
      }
    }
  }

  /** One pass of the tagging loop: find the change's container, capture its reference, tag its image. */
  method TagRunningImage(docker: Docker, host: string, containers: seq<Container>, ch: ImageChange)
      returns (captured: ImageChange)
    modifies docker
    ensures captured == Captured(containers, ch)
    ensures docker.tags == var prev := Previous(containers, ch);
              if prev.None? then old(docker.tags)
              else OrSame(old(docker.tags), TagCall(old(docker.tags), docker.refused,
                     ById(prev.value.imageId), Prefix(host, ch.image), "rollback"))
  {
    captured := ch;
    var imgName := ImageName(ch.image);
    var k := 0;
    while k < |containers|
      invariant 0 <= k <= |containers|
      invariant forall j :: 0 <= j < k ==> !Matches(containers[j], imgName)
    {
      var c := containers[k];
      if c.state == "running" && SameOrUnder(ImageName(c.image), imgName) {
        if c.inspectable {
          captured := ch.(oldRef := c.configImage);
          var _ := docker.TagImage(ById(c.imageId), Prefix(host, ch.image), "rollback");
        }
        break;
      }
      k := k + 1;
    }
    assert FirstMatch(containers, imgName) == if k < |containers| then k else -1;
  }

  /** Step 1 of deploy: tag what runs as ":rollback" and record its reference in the list. */
  method TagRunningImages(docker: Docker, host: string, containers: seq<Container>, changed: array<ImageChange>)
    modifies docker, changed
    ensures docker.tags == Prepare(old(docker.tags), docker.refused, host, containers, old(changed[..]))
    ensures changed[..] == CapturedAll(containers, old(changed[..]))
  {
    ghost var chs := changed[..];
    var i := 0;
    while i < changed.Length
      invariant 0 <= i <= changed.Length
      invariant docker.tags == Prepare(old(docker.tags), docker.refused, host, containers, chs[..i])
      invariant forall k :: 0 <= k < changed.Length ==>
          changed[k] == if k < i then Captured(containers, chs[k]) else chs[k]
    {
      assert chs[..i + 1][..i] == chs[..i];
      changed[i] := TagRunningImage(docker, host, containers, changed[i]);
      i := i + 1;
    }
    assert chs[..i] == chs;
  }

  /** One pass of the retag loop: the captured compose reference first, then the registry one. */
  method RetagImage(docker: Docker, host: string, ch: ImageChange) returns (ok: bool)
    modifies docker
    ensures var mid := RetagOldRef(old(docker.tags), docker.refused, host, ch);
            var answer := RetagRegistry(mid, docker.refused, host, ch);
            ok == answer.Some? && docker.tags == OrSame(mid, answer)
  {
    var prefix, tag := Prefix(host, ch.image), ImageTag(ch.image);
    var rollbackImage := prefix + ":" + "rollback";
    var composeRef := prefix + ":" + tag;
    if ch.oldRef != "" && ch.oldRef != composeRef {
      var _ := docker.TagImage(ByRef(rollbackImage), ImageName(ch.oldRef), ImageTag(ch.oldRef));
    }
    ok := docker.TagImage(ByRef(rollbackImage), prefix, tag);
  }

  /** The retag loop of rollback: every image is tried, and one refusal makes the whole loop a failure. */
  method RetagAll(docker: Docker, host: string, changed: array<ImageChange>) returns (tagFailed: bool)
    modifies docker
    ensures (docker.tags, tagFailed) == Retag(old(docker.tags), docker.refused, host, changed[..])
  {
    hide RetagOldRef, RetagRegistry;
    tagFailed := false;
    var i := 0;
    while i < changed.Length
      invariant 0 <= i <= changed.Length
      invariant (docker.tags, tagFailed) == Retag(old(docker.tags), docker.refused, host, changed[..i])
    {
      assert changed[..i + 1][..i] == changed[..i];
      var ok := RetagImage(docker, host, changed[i]);
      if !ok { tagFailed := true; }
      i := i + 1;
    }
    assert changed[..] == changed[..changed.Length];
  }

  // ---- which container is captured ----

  /** The first listed container in state "running" whose image name is the change's, or ends in it after a
      slash, is the one the loop captures; if it cannot be inspected, nothing is. */
  lemma FirstRunningIsCaptured(cs: seq<Container>, ch: ImageChange, k: nat)
    requires k < |cs| && cs[k].state == "running"
    requires ImageName(cs[k].image) == ImageName(ch.image)
          || HasSuffix(ImageName(cs[k].image), "/" + ImageName(ch.image))
    requires forall j :: 0 <= j < k && cs[j].state == "running" ==>
      ImageName(cs[j].image) != ImageName(ch.image) && !HasSuffix(ImageName(cs[j].image), "/" + ImageName(ch.image))
    ensures Previous(cs, ch) == if cs[k].inspectable then Some(cs[k]) else None
    ensures Captured(cs, ch) == if cs[k].inspectable then ch.(oldRef := cs[k].configImage) else ch
  {
    hide ImageName, HasSuffix;
    var m := FirstMatch(cs, ImageName(ch.image));
    assert Matches(cs[k], ImageName(ch.image));
    assert m == k;
  }

  /** If no running container carries the image, nothing is captured. */
  lemma NothingRunningIsCaptured(cs: seq<Container>, ch: ImageChange)
    requires forall j :: 0 <= j < |cs| && cs[j].state == "running" ==>
      ImageName(cs[j].image) != ImageName(ch.image) && !HasSuffix(ImageName(cs[j].image), "/" + ImageName(ch.image))
    ensures Previous(cs, ch) == None && Captured(cs, ch) == ch
  {
    hide ImageName, HasSuffix;
  }

  /** Whatever is captured was running: stopped containers are never taken for it, wherever they are listed. */
  lemma CapturedWasRunning(cs: seq<Container>, ch: ImageChange)
    ensures Previous(cs, ch).Some? ==>
              var c := Previous(cs, ch).value;
              && c in cs && c.state == "running" && c.inspectable
              && (ImageName(c.image) == ImageName(ch.image) || HasSuffix(ImageName(c.image), "/" + ImageName(ch.image)))
  {
    hide ImageName, HasSuffix;
  }
}
