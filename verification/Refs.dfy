/** Image references and map keys: how the updater, the registry client and the
    Docker client split "name:tag", and when the three ways of splitting agree. */
module Refs {

  /** Index of the last occurrence of `c` in `s`, or -1. */
  function LastIndex(s: string, c: char): (r: int)
    ensures -1 <= r < |s|
    ensures r >= 0 ==> s[r] == c
    ensures forall k :: r < k < |s| ==> s[k] != c
  {
    if s == [] then -1
    else if s[|s| - 1] == c then |s| - 1
    else LastIndex(s[..|s| - 1], c)
  }

  predicate HasPrefix(s: string, p: string) { |p| <= |s| && s[..|p|] == p }

  predicate HasSuffix(s: string, p: string) { |p| <= |s| && s[|s| - |p|..] == p }

  /** The updater's name and tag, and the registry client's parseRef: cut at the last colon. */
  function ImageName(image: string): string {
    var i := LastIndex(image, ':');
    if i >= 0 then image[..i] else image
  }

  function ImageTag(image: string): string {
    var i := LastIndex(image, ':');
    if i >= 0 then image[i + 1..] else "latest"
  }

  function ParseRef(image: string): (string, string) {
    (ImageName(image), ImageTag(image))
  }

  /** The Docker client's reading: only a colon after the last slash separates a tag. */
  function ParseImageRef(image: string): (string, string) {
    var lastSlash := LastIndex(image, '/');
    var tagPart := if lastSlash >= 0 then image[lastSlash..] else image;
    var i := LastIndex(tagPart, ':');
    if i >= 0 then
      var at := if lastSlash >= 0 then lastSlash + i else i;
      (image[..at], image[at + 1..])
    else (image, "latest")
  }

  /** The reference Docker files an image under: repository and explicit tag. */
  function Canonical(image: string): string {
    ParseImageRef(image).0 + ":" + ParseImageRef(image).1
  }

  /** A tag Docker can accept holds neither separator. */
  predicate ValidTag(tag: string) {
    tag != "" && ':' !in tag && '/' !in tag
  }

  /** No colon, or the last colon comes after the last slash. */
  predicate ColonAfterSlash(image: string) {
    LastIndex(image, ':') < 0 || LastIndex(image, '/') < LastIndex(image, ':')
  }

  lemma LastIndexOfSuffix(s: string, c: char, n: nat)
    requires n <= |s|
    ensures LastIndex(s[n..], c) == if LastIndex(s, c) >= n then LastIndex(s, c) - n else -1
  {
    var r, i := LastIndex(s, c), LastIndex(s[n..], c);
    assert i >= 0 ==> s[n + i] == c;
    assert r >= n ==> s[n..][r - n] == c;
  }

  /** Docker's reading in terms of the two separators of the whole reference. */
  lemma DockerReading(image: string)
    ensures ParseImageRef(image) == if ColonAfterSlash(image) then ParseRef(image) else (image, "latest")
  {
    hide LastIndex;
    var slash, colon := LastIndex(image, '/'), LastIndex(image, ':');
    if slash >= 0 {
      LastIndexOfSuffix(image, ':', slash);
      assert colon != slash;
      if colon > slash {
        assert ParseImageRef(image) == (image[..colon], image[colon + 1..]);
      } else {
        assert ParseImageRef(image) == (image, "latest");
      }
    }
  }

  /** The parsers give one answer exactly on references without a port-only colon. */
  lemma ParsersAgree(image: string)
    ensures ParseImageRef(image) == ParseRef(image) <==> ColonAfterSlash(image)
  {
    DockerReading(image);
    var colon := LastIndex(image, ':');
    assert colon >= 0 ==> |image[..colon]| != |image|;
  }

  /** Cutting at the last colon inverts "name:tag" exactly for colon-free tags. */
  lemma SplitInvertsJoin(name: string, tag: string)
    ensures ParseRef(name + ":" + tag) == (name, tag) <==> ':' !in tag
  {
    var image := name + ":" + tag;
    var i := LastIndex(image, ':');
    assert image[|name|] == ':' && image[|name| + 1..] == tag && image[..|name|] == name;
    assert forall k :: 0 <= k < |tag| ==> image[|name| + 1 + k] == tag[k];
    assert |image[..i]| == i;
  }

  /** Docker's reading inverts "name:tag" exactly when the tag holds no separator at all. */
  lemma DockerSplitInvertsJoin(name: string, tag: string)
    ensures ParseImageRef(name + ":" + tag) == (name, tag) <==> ':' !in tag && '/' !in tag
  {
    hide ParseImageRef, ParseRef;
    var image := name + ":" + tag;
    assert image[|name|] == ':';
    assert forall k :: 0 <= k < |tag| ==> image[|name| + 1 + k] == tag[k];
    SplitInvertsJoin(name, tag);
    DockerReading(image);
    assert |image| != |name|;
  }

  lemma CanonicalOfJoin(name: string, tag: string)
    requires ValidTag(tag)
    ensures Canonical(name + ":" + tag) == name + ":" + tag
    ensures ImageName(name + ":" + tag) == name && ImageTag(name + ":" + tag) == tag
  {
    DockerSplitInvertsJoin(name, tag);
    SplitInvertsJoin(name, tag);
  }

  /** Joining is injective on colon-free tags. */
  lemma JoinInjective(n1: string, t1: string, n2: string, t2: string)
    requires ':' !in t1 && ':' !in t2 && n1 + ":" + t1 == n2 + ":" + t2
    ensures n1 == n2 && t1 == t2
  {
    SplitInvertsJoin(n1, t1);
    SplitInvertsJoin(n2, t2);
  }

  /** The key of the blocked and not-found maps. */
  function Key(service: string, image: string): string { service + "/" + image }

  lemma KeyPrefixSelf(service: string, image: string)
    ensures HasPrefix(Key(service, image), service + "/")
  {
    assert Key(service, image)[..|service| + 1] == service + "/";
  }

  /** What the prefix scan of UnblockService(owner) selects, for all names: the keys of the owner, those of
      services nested under it, and those of services it is nested under whose image begins with the rest. */
  lemma KeysPartition(service: string, image: string, owner: string)
    ensures HasPrefix(Key(service, image), owner + "/") <==>
              || service == owner
              || HasPrefix(service, owner + "/")
              || (HasPrefix(owner, service + "/") && HasPrefix(image, owner[|service| + 1..] + "/"))
  {
    var k, p := Key(service, image), owner + "/";
    assert forall n :: 0 <= n < |service| ==> k[n] == service[n];
    assert k[|service|] == '/' && k[|service| + 1..] == image && k[..|service|] == service;
    if |owner| < |service| {
      assert k[..|p|] == service[..|p|];
    } else if |owner| == |service| {
      assert k[..|p|] == service + "/";
      assert (service + "/")[..|service|] == service && p[..|owner|] == owner;
    } else {
      var rest := owner[|service| + 1..];
      OwnerIsNested(service, image, owner, rest);
    }
  }

  lemma OwnerIsNested(service: string, image: string, owner: string, rest: string)
    requires |service| < |owner| && rest == owner[|service| + 1..]
    ensures HasPrefix(Key(service, image), owner + "/") <==>
              HasPrefix(owner, service + "/") && HasPrefix(image, rest + "/")
  {
    var k, p, n := Key(service, image), owner + "/", |service| + 1;
    assert p[..n] == owner[..n] && p[n..] == rest + "/";
    assert k[..n] == service + "/" && k[n..] == image;
    if HasPrefix(k, p) {
      assert k[..|p|][..n] == k[..n] && k[..|p|][n..] == k[n..][..|p| - n];
    }
    if HasPrefix(owner, service + "/") && HasPrefix(image, rest + "/") {
      assert p == p[..n] + p[n..] && k[..|p|] == k[..n] + k[n..][..|p| - n];
    }
  }

  /** Neither name is nested under the other. */
  predicate Apart(r: string, s: string) {
    !HasPrefix(r, s + "/") && !HasPrefix(s, r + "/")
  }

  /** For names that are not nested the scan selects exactly the owner's keys. */
  lemma ApartKeysPartition(service: string, image: string, owner: string)
    requires Apart(service, owner)
    ensures HasPrefix(Key(service, image), owner + "/") <==> service == owner
  {
    KeysPartition(service, image, owner);
  }

  lemma SlashFreeIsApart(r: string, s: string)
    requires '/' !in r && '/' !in s
    ensures Apart(r, s)
  {
    NestedHasSlash(r, s);
    NestedHasSlash(s, r);
  }

  lemma NestedHasSlash(r: string, s: string)
    ensures HasPrefix(r, s + "/") ==> '/' in r
  {
    if HasPrefix(r, s + "/") { assert r[|s|] == r[..|s| + 1][|s|] == '/'; }
  }

  /** Slash-free service names make keys unambiguous. */
  lemma KeyInjective(s1: string, i1: string, s2: string, i2: string)
    requires '/' !in s1 && '/' !in s2 && Key(s1, i1) == Key(s2, i2)
    ensures s1 == s2 && i1 == i2
  {
    KeyPrefixSelf(s2, i2);
    SlashFreeIsApart(s1, s2);
    ApartKeysPartition(s1, i1, s2);
    assert Key(s1, i1)[|s1| + 1..] == i1 && Key(s2, i2)[|s2| + 1..] == i2;
  }

  lemma KeyInjectiveImage(s: string, i1: string, i2: string)
    requires Key(s, i1) == Key(s, i2)
    ensures i1 == i2
  {
    assert Key(s, i1)[|s| + 1..] == i1 && Key(s, i2)[|s| + 1..] == i2;
  }

  /** Prefixes and suffixes are what is left of a concatenation. */
  lemma AffixesAreParts(s: string, p: string)
    ensures HasPrefix(s, p) <==> exists rest: string :: s == p + rest
    ensures HasSuffix(s, p) <==> exists front: string :: s == front + p
  {
    if HasPrefix(s, p) { assert s == p + s[|p|..]; }
    if HasSuffix(s, p) { assert s == s[..|s| - |p|] + p; }
  }

  /** A reference without a colon names the tag "latest" for every parser. */
  lemma UntaggedIsLatest(image: string)
    requires ':' !in image
    ensures ParseRef(image) == (image, "latest") == ParseImageRef(image)
    ensures ImageName(image) == image && ImageTag(image) == "latest"
  {
    assert LastIndex(image, ':') < 0;
    ParsersAgree(image);
  }
}
