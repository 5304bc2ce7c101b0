/** What one check does to each image, stated image by image: the loop treats the images of a
    service independently, and suppression entries survive until another digest is read. */
module Checks {
  import opened Common
  import opened Refs
  import opened Tagging
  import opened Updater

  ghost predicate Distinct(images: seq<string>) {
    forall i, j :: 0 <= i < j < |images| ==> images[i] != images[j]
  }

  /** The loop gets to image i: no registry error up to and including it. */
  ghost predicate Reached(rs: seq<Reading>, i: nat)
    requires i < |rs|
  {
    forall j :: 0 <= j <= i ==> rs[j].Reading?
  }

  /** How often an alert has been sent. */
  ghost function Times(t: Tables, a: Alert): nat { multiset(t.sent)[a] }

  /** The entry of image `image` in a list of changes. */
  ghost predicate HasChange(changed: seq<ImageChange>, image: string) {
    exists c :: c in changed && c.image == image
  }

  /** The shape of one pass: at most the image's own entries change, and at most one alert is sent. */
  ghost predicate OwnEntriesOnly(t: Tables, t': Tables, s: string, key: string) {
    && t'.deploying == t.deploying && t'.errored == t.errored
    && t'.startAttempted == t.startAttempted && t'.composeHashes == t.composeHashes
    && (t'.sent == t.sent || exists d :: t'.sent == t.sent + [NotFoundAlert(key, d)])
    && ((t'.blocked == t.blocked && t'.blockedGauge == t.blockedGauge)
        || (t'.blocked == t.blocked - {key} && t'.blockedGauge == t.blockedGauge[s := false]))
    && t'.notFound - {key} == t.notFound - {key}
  }

  lemma PassOwnEntriesOnly(sc: Scan, s: string, image: string, r: Reading)
    requires sc.failure.None?
    ensures OwnEntriesOnly(sc.t, CheckImage(sc, s, image, r).t, s, Key(s, image))
  {
    hide Key, LiftBlock, LiftNotFound, Suppressed;
    var key := Key(s, image);
    if r.Reading? {
      var t1 := LiftBlock(sc.t, s, key, r.remote);
      LiftBlockShape(sc.t, s, key, r.remote);
      var t2 := LiftNotFound(t1, key, r.remote);
      LiftNotFoundShape(t1, key, r.remote);
      var t' := CheckImage(sc, s, image, r).t;
      assert t' == sc.t || t' == t1 || t' == t2
          || t' == t2.(notFound := t2.notFound[key := r.remote], sent := t2.sent + [NotFoundAlert(key, r.remote)]);
    }
  }

  lemma LiftBlockShape(t: Tables, s: string, key: string, remote: Digest)
    ensures var t' := LiftBlock(t, s, key, remote);
            t' == t || t' == t.(blocked := t.blocked - {key}, blockedGauge := t.blockedGauge[s := false])
  {}

  lemma LiftNotFoundShape(t: Tables, key: string, remote: Digest)
    ensures var t' := LiftNotFound(t, key, remote);
            t' == t || t' == t.(notFound := t.notFound - {key})
  {}

  lemma OwnAlertsOnly(t: Tables, t': Tables, s: string, key: string, a: Alert)
    requires OwnEntriesOnly(t, t', s, key)
    requires a.NotFoundAlert? ==> a.key != key
    ensures Times(t', a) == Times(t, a)
  {
    if t'.sent != t.sent {
      var d :| t'.sent == t.sent + [NotFoundAlert(key, d)];
      assert multiset(t'.sent) == multiset(t.sent) + multiset{NotFoundAlert(key, d)};
    }
  }

  lemma OwnMapsOnly(t: Tables, t': Tables, s: string, key: string, other: string)
    requires OwnEntriesOnly(t, t', s, key) && other != key
    ensures Lookup(t'.blocked, other) == Lookup(t.blocked, other)
    ensures Lookup(t'.notFound, other) == Lookup(t.notFound, other)
  {
    assert Lookup(t'.notFound - {key}, other) == Lookup(t.notFound - {key}, other);
  }

  /** One pass leaves the entries and alerts of every other key alone. */
  lemma PassElsewhere(sc: Scan, s: string, image: string, r: Reading, key: string)
    requires sc.failure.None? && Key(s, image) != key
    ensures var sc' := CheckImage(sc, s, image, r);
            && Lookup(sc'.t.blocked, key) == Lookup(sc.t.blocked, key)
            && Lookup(sc'.t.notFound, key) == Lookup(sc.t.notFound, key)
            && forall d :: Times(sc'.t, NotFoundAlert(key, d)) == Times(sc.t, NotFoundAlert(key, d))
  {
    hide Key, CheckImage, Times, OwnEntriesOnly, Lookup;
    var t' := CheckImage(sc, s, image, r).t;
    PassOwnEntriesOnly(sc, s, image, r);
    OwnMapsOnly(sc.t, t', s, Key(s, image), key);
    forall d ensures Times(t', NotFoundAlert(key, d)) == Times(sc.t, NotFoundAlert(key, d)) {
      OwnAlertsOnly(sc.t, t', s, Key(s, image), NotFoundAlert(key, d));
    }
  }

  /** A pass appends at most the change it has just read. */
  lemma PassKeepsChanges(sc: Scan, s: string, image: string, r: Reading)
    requires sc.failure.None?
    ensures var changed := CheckImage(sc, s, image, r).changed;
            changed == sc.changed || (r.Reading? && changed == sc.changed + [ImageChange(image, r.local, r.remote, "")])
  {
    hide Key, LiftBlock, LiftNotFound;
  }

  /** A key that belongs to none of the images keeps its entries and raises no alert. */
  lemma {:induction false} OtherKeysUntouched(t: Tables, s: string, images: seq<string>, rs: seq<Reading>, key: string)
    requires |rs| == |images|
    requires forall i :: 0 <= i < |images| ==> Key(s, images[i]) != key
    ensures var sc := CheckImages(t, s, images, rs);
            && Lookup(sc.t.blocked, key) == Lookup(t.blocked, key)
            && Lookup(sc.t.notFound, key) == Lookup(t.notFound, key)
            && (forall d :: Times(sc.t, NotFoundAlert(key, d)) == Times(t, NotFoundAlert(key, d)))
            && (forall c :: c in sc.changed ==> Key(s, c.image) != key)
  {
    hide Key, CheckImage, Times, Lookup;
    if images != [] {
      var n := |images| - 1;
      OtherKeysUntouched(t, s, images[..n], rs[..n], key);
      var sc := CheckImages(t, s, images[..n], rs[..n]);
      if sc.failure.None? {
        PassElsewhere(sc, s, images[n], rs[n], key);
        PassKeepsChanges(sc, s, images[n], rs[n]);
      }
    }
  }

  /** Tables that no check touches. */
  ghost predicate SameElse(t: Tables, t': Tables) {
    && t'.deploying == t.deploying && t'.errored == t.errored
    && t'.startAttempted == t.startAttempted && t'.composeHashes == t.composeHashes
    && forall s, m :: Times(t', PollErrorAlert(s, m)) == Times(t, PollErrorAlert(s, m))
  }

  lemma PassTouchesOnlyItsTables(sc: Scan, s: string, image: string, r: Reading)
    requires sc.failure.None?
    ensures SameElse(sc.t, CheckImage(sc, s, image, r).t)
  {
    hide Key, CheckImage, Times;
    var t' := CheckImage(sc, s, image, r).t;
    PassOwnEntriesOnly(sc, s, image, r);
    forall s', m ensures Times(t', PollErrorAlert(s', m)) == Times(sc.t, PollErrorAlert(s', m)) {
      OwnAlertsOnly(sc.t, t', s, Key(s, image), PollErrorAlert(s', m));
    }
  }

  lemma {:induction false} CheckTouchesOnlyItsTables(t: Tables, s: string, images: seq<string>, rs: seq<Reading>)
    requires |rs| == |images|
    ensures SameElse(t, CheckImages(t, s, images, rs).t)
  {
    hide CheckImage, Times;
    if images != [] {
      var n := |images| - 1;
      CheckTouchesOnlyItsTables(t, s, images[..n], rs[..n]);
      var sc := CheckImages(t, s, images[..n], rs[..n]);
      if sc.failure.None? { PassTouchesOnlyItsTables(sc, s, images[n], rs[n]); }
    }
  }

  /** The verdict on one image is a function of its own suppression entries and its own reading. */
  ghost predicate Verdict(before: Tables, after: Tables, changed: seq<ImageChange>, s: string, image: string,
      r: Reading)
    requires r.Reading?
  {
    var key := Key(s, image);
    if Suppressed(before.blocked, key, r.remote) then
      && Lookup(after.blocked, key) == Lookup(before.blocked, key)
      && Lookup(after.notFound, key) == Lookup(before.notFound, key)
      && !HasChange(changed, image)
      && forall d :: Times(after, NotFoundAlert(key, d)) == Times(before, NotFoundAlert(key, d))
    else
      && Get(after.blocked, key) == ""
      && if Suppressed(before.notFound, key, r.remote) then
           && Lookup(after.notFound, key) == Lookup(before.notFound, key)
           && !HasChange(changed, image)
           && forall d :: Times(after, NotFoundAlert(key, d)) == Times(before, NotFoundAlert(key, d))
         else
           && Get(after.notFound, key) == (if r.local == "" then r.remote else "")
           && (HasChange(changed, image) <==> r.local != "" && r.local != r.remote)
           && (forall c :: c in changed && c.image == image ==> c == ImageChange(image, r.local, r.remote, ""))
           && forall d :: Times(after, NotFoundAlert(key, d))
                == Times(before, NotFoundAlert(key, d)) + (if r.local == "" && d == r.remote then 1 else 0)
  }

  /** A pass alerts exactly when the digest is news and no container carries the image. */
  lemma PassAlerts(sc: Scan, s: string, image: string, r: Reading)
    requires sc.failure.None? && r.Reading?
    ensures var t, t', key := sc.t, CheckImage(sc, s, image, r).t, Key(s, image);
            var alerts := !Suppressed(t.blocked, key, r.remote) && !Suppressed(t.notFound, key, r.remote) &&
                r.local == "";
            forall d :: Times(t', NotFoundAlert(key, d))
                     == Times(t, NotFoundAlert(key, d)) + if alerts && d == r.remote then 1 else 0
  {
    hide Key, Suppressed;
    var t, t', key := sc.t, CheckImage(sc, s, image, r).t, Key(s, image);
    assert LiftBlock(t, s, key, r.remote).notFound == t.notFound;
    if t'.sent != t.sent {
      assert multiset(t'.sent) == multiset(t.sent) + multiset{NotFoundAlert(key, r.remote)};
    }
  }

  lemma PassEntries(sc: Scan, s: string, image: string, r: Reading)
    requires sc.failure.None? && r.Reading?
    ensures var t, t', key := sc.t, CheckImage(sc, s, image, r).t, Key(s, image);
            if Suppressed(t.blocked, key, r.remote) then t' == t
            else
              && Get(t'.blocked, key) == ""
              && if Suppressed(t.notFound, key, r.remote) then t'.notFound == t.notFound
                 else Get(t'.notFound, key) == if r.local == "" then r.remote else ""
  {
    hide Key;
  }

  lemma PassChanges(sc: Scan, s: string, image: string, r: Reading)
    requires sc.failure.None? && r.Reading? && !HasChange(sc.changed, image)
    ensures var t, key, changed := sc.t, Key(s, image), CheckImage(sc, s, image, r).changed;
            && (HasChange(changed, image) <==>
                  !Suppressed(t.blocked, key, r.remote) && !Suppressed(t.notFound, key, r.remote)
                  && r.local != "" && r.local != r.remote)
            && (forall c :: c in changed && c.image == image ==> c == ImageChange(image, r.local, r.remote, ""))
  {
    hide Key, Suppressed;
    var changed := CheckImage(sc, s, image, r).changed;
    assert LiftBlock(sc.t, s, Key(s, image), r.remote).notFound == sc.t.notFound;
    assert |changed| > |sc.changed| ==> changed[|sc.changed|] == ImageChange(image, r.local, r.remote, "");
  }

  lemma PassGivesVerdict(sc: Scan, s: string, image: string, r: Reading)
    requires sc.failure.None? && r.Reading? && !HasChange(sc.changed, image)
    ensures var sc' := CheckImage(sc, s, image, r);
            Verdict(sc.t, sc'.t, sc'.changed, s, image, r)
  {
    hide Key, Times, Lookup, Get, CheckImage, HasChange, Suppressed;
    PassAlerts(sc, s, image, r);
    PassEntries(sc, s, image, r);
    PassChanges(sc, s, image, r);
  }

  /** Entries, alerts and changes of one image, for comparing two scans. */
  ghost predicate SameFor(t: Tables, t': Tables, s: string, image: string) {
    && Lookup(t'.blocked, Key(s, image)) == Lookup(t.blocked, Key(s, image))
    && Lookup(t'.notFound, Key(s, image)) == Lookup(t.notFound, Key(s, image))
    && forall d :: Times(t', NotFoundAlert(Key(s, image), d)) == Times(t, NotFoundAlert(Key(s, image), d))
  }

  /** Each image of a service is judged on its own, whatever the others read. */
  lemma {:induction false} ImagesAreIndependent(t: Tables, s: string, images: seq<string>, rs: seq<Reading>, i: nat)
    requires |rs| == |images| && i < |images| && Distinct(images)
    ensures var sc := CheckImages(t, s, images, rs);
            if Reached(rs, i) then Verdict(t, sc.t, sc.changed, s, images[i], rs[i])
            else SameFor(t, sc.t, s, images[i]) && !HasChange(sc.changed, images[i])
  {
    hide Key, CheckImage, Times, Verdict, SameFor;
    var n := |images| - 1;
    if i == n {
      LastImageVerdict(t, s, images, rs);
    } else {
      ImagesAreIndependent(t, s, images[..n], rs[..n], i);
      EarlierImageUntouched(t, s, images, rs, i);
      assert Reached(rs, i) <==> Reached(rs[..n], i);
      var sc, sc' := CheckImages(t, s, images[..n], rs[..n]), CheckImages(t, s, images, rs);
      if Reached(rs, i) {
        SameVerdict(t, sc.t, sc.changed, sc'.t, sc'.changed, s, images[i], rs[i]);
      } else {
        FailureIffUnreached(t, s, images[..n], rs[..n]);
      }
    }
  }

  /** Up to the last image nothing has happened to its key. */
  lemma LastKeyIsFresh(t: Tables, s: string, images: seq<string>, rs: seq<Reading>)
    requires |rs| == |images| && images != [] && Distinct(images)
    ensures var sc, key := CheckImages(t, s, images[..|images| - 1], rs[..|images| - 1]), Key(s, images[|images| - 1]);
            && Lookup(sc.t.blocked, key) == Lookup(t.blocked, key)
            && Lookup(sc.t.notFound, key) == Lookup(t.notFound, key)
            && Get(sc.t.blocked, key) == Get(t.blocked, key) && Get(sc.t.notFound, key) == Get(t.notFound, key)
            && (forall d :: Times(sc.t, NotFoundAlert(key, d)) == Times(t, NotFoundAlert(key, d)))
            && (forall c :: c in sc.changed ==> Key(s, c.image) != key)
  {
    hide Key, CheckImages, Times, Lookup, Get;
    var n := |images| - 1;
    forall j | 0 <= j < n ensures Key(s, images[..n][j]) != Key(s, images[n]) {
      if Key(s, images[j]) == Key(s, images[n]) { KeyInjectiveImage(s, images[j], images[n]); }
    }
    OtherKeysUntouched(t, s, images[..n], rs[..n], Key(s, images[n]));
    SameSuppression(t, CheckImages(t, s, images[..n], rs[..n]).t, Key(s, images[n]));
  }

  lemma LastImageVerdict(t: Tables, s: string, images: seq<string>, rs: seq<Reading>)
    requires |rs| == |images| && images != [] && Distinct(images)
    ensures var sc, n := CheckImages(t, s, images, rs), |images| - 1;
            if Reached(rs, n) then Verdict(t, sc.t, sc.changed, s, images[n], rs[n])
            else SameFor(t, sc.t, s, images[n]) && !HasChange(sc.changed, images[n])
  {
    hide Key, CheckImage, Times, Lookup, Get;
    var n := |images| - 1;
    var sc := CheckImages(t, s, images[..n], rs[..n]);
    FailureIffUnreached(t, s, images[..n], rs[..n]);
    LastKeyIsFresh(t, s, images, rs);
    if sc.failure.None? && rs[n].Reading? {
      PassGivesVerdict(sc, s, images[n], rs[n]);
      SameStart(t, sc.t, CheckImage(sc, s, images[n], rs[n]), s, images[n], rs[n]);
    } else if sc.failure.None? {
      PassOnError(sc, s, images[n], rs[n]);
    }
  }

  /** A verdict depends on the state before the pass only through the image's own entries. */
  lemma SameStart(t0: Tables, t: Tables, sc: Scan, s: string, image: string, r: Reading)
    requires r.Reading? && SameFor(t0, t, s, image) && Verdict(t, sc.t, sc.changed, s, image, r)
    ensures Verdict(t0, sc.t, sc.changed, s, image, r)
  {
    hide Key, Times, HasChange;
  }

  lemma SameVerdict(t: Tables, t1: Tables, ch1: seq<ImageChange>, t2: Tables, ch2: seq<ImageChange>, s: string,
      image: string, r: Reading)
    requires r.Reading? && Verdict(t, t1, ch1, s, image, r) && SameFor(t1, t2, s, image)
    requires forall c: ImageChange :: c.image == image ==> (c in ch1 <==> c in ch2)
    ensures Verdict(t, t2, ch2, s, image, r)
  {
    hide Key, Times;
    assert HasChange(ch1, image) <==> HasChange(ch2, image);
  }

  lemma EarlierImageUntouched(t: Tables, s: string, images: seq<string>, rs: seq<Reading>, i: nat)
    requires |rs| == |images| && i < |images| - 1 && Distinct(images)
    ensures var sc, sc' := CheckImages(t, s, images[..|images| - 1], rs[..|images| - 1]), CheckImages(t, s, images, rs);
            SameFor(sc.t, sc'.t, s, images[i]) && forall c: ImageChange :: c.image == images[i] ==>
                (c in sc.changed <==> c in sc'.changed)
  {
    hide Key, CheckImage, Times, Lookup;
    var n := |images| - 1;
    var sc := CheckImages(t, s, images[..n], rs[..n]);
    if Key(s, images[i]) == Key(s, images[n]) { KeyInjectiveImage(s, images[i], images[n]); }
    if sc.failure.None? {
      PassElsewhere(sc, s, images[n], rs[n], Key(s, images[i]));
      PassKeepsChanges(sc, s, images[n], rs[n]);
    }
  }

  lemma PassOnError(sc: Scan, s: string, image: string, r: Reading)
    requires sc.failure.None? && r.RegistryError?
    ensures CheckImage(sc, s, image, r) == sc.(failure := Some(r.message))
  {}

  lemma {:induction false} FailureIffUnreached(t: Tables, s: string, images: seq<string>, rs: seq<Reading>)
    requires |rs| == |images|
    ensures CheckImages(t, s, images, rs).failure.None? <==> forall i :: 0 <= i < |rs| ==> rs[i].Reading?
  {
    hide CheckImage;
    if images != [] {
      var n := |images| - 1;
      FailureIffUnreached(t, s, images[..n], rs[..n]);
      var sc := CheckImages(t, s, images[..n], rs[..n]);
      if sc.failure.None? { PassFailsOnError(sc, s, images[n], rs[n]); }
      assert forall i :: 0 <= i < n ==> rs[..n][i] == rs[i];
    }
  }

  /** The failure that ends the loop is the first registry error. */
  lemma {:induction false} FirstErrorIsReported(t: Tables, s: string, images: seq<string>, rs: seq<Reading>, i: nat)
    requires |rs| == |images| && i < |rs| && rs[i].RegistryError? && forall j :: 0 <= j < i ==> rs[j].Reading?
    ensures CheckImages(t, s, images, rs).failure == Some(rs[i].message)
    ensures CheckImages(t, s, images, rs).t == CheckImages(t, s, images[..i], rs[..i]).t
  {
    hide CheckImage;
    FailureIffUnreached(t, s, images[..i], rs[..i]);
    var upTo := CheckImages(t, s, images[..i], rs[..i]);
    PassOnError(upTo, s, images[i], rs[i]);
    assert images[..i + 1][..i] == images[..i] && rs[..i + 1][..i] == rs[..i];
    FailureStops(t, s, images, rs, i + 1);
  }

  lemma PassFailsOnError(sc: Scan, s: string, image: string, r: Reading)
    requires sc.failure.None?
    ensures CheckImage(sc, s, image, r).failure.None? <==> r.Reading?
  {
    hide Key, LiftBlock, LiftNotFound, Suppressed;
  }

  /** The loop got to image i, which the change is for, and read the change's digest. */
  ghost predicate ReadFor(images: seq<string>, rs: seq<Reading>, i: nat, c: ImageChange)
    requires |rs| == |images| && i < |images|
  {
    Reached(rs, i) && rs[i].Reading? && images[i] == c.image && rs[i].remote == c.newDigest
  }

  /** Changes come from images that were reached, with the digests that were read. */
  lemma {:induction false} ChangesWereRead(t: Tables, s: string, images: seq<string>, rs: seq<Reading>)
    requires |rs| == |images|
    ensures forall c :: c in CheckImages(t, s, images, rs).changed ==>
              exists i :: 0 <= i < |images| && ReadFor(images, rs, i, c)
  {
    hide Key, CheckImage;
    if images != [] {
      var n := |images| - 1;
      ChangesWereRead(t, s, images[..n], rs[..n]);
      FailureIffUnreached(t, s, images[..n], rs[..n]);
      var before := CheckImages(t, s, images[..n], rs[..n]);
      if before.failure.None? { PassKeepsChanges(before, s, images[n], rs[n]); }
      forall c | c in CheckImages(t, s, images, rs).changed
        ensures exists i :: 0 <= i < |images| && ReadFor(images, rs, i, c)
      {
        if c in before.changed {
          var i :| 0 <= i < n && ReadFor(images[..n], rs[..n], i, c);
          assert forall j :: 0 <= j <= i ==> rs[j] == rs[..n][j];
          assert ReadFor(images, rs, i, c);
        } else {
          assert forall j :: 0 <= j < n ==> rs[j] == rs[..n][j];
          assert ReadFor(images, rs, n, c);
        }
      }
    }
  }

  ghost predicate DistinctChanges(changed: seq<ImageChange>) {
    forall i, j :: 0 <= i < j < |changed| ==> changed[i].image != changed[j].image
  }

  /** Listing each image once yields at most one change per image. */
  lemma {:induction false} ChangesAreDistinct(t: Tables, s: string, images: seq<string>, rs: seq<Reading>)
    requires |rs| == |images| && Distinct(images)
    ensures DistinctChanges(CheckImages(t, s, images, rs).changed)
  {
    hide Key, CheckImage;
    if images != [] {
      var n := |images| - 1;
      ChangesAreDistinct(t, s, images[..n], rs[..n]);
      ChangesWereRead(t, s, images[..n], rs[..n]);
      var before := CheckImages(t, s, images[..n], rs[..n]);
      assert forall i :: 0 <= i < |before.changed| ==> before.changed[i].image != images[n] by {
        assert forall i :: 0 <= i < |before.changed| ==> before.changed[i] in before.changed;
      }
      if before.failure.None? { PassKeepsChanges(before, s, images[n], rs[n]); }
    }
  }

  /** Image i was reached, is not suppressed, and runs what the registry has. */
  ghost predicate UpToDate(t: Tables, s: string, images: seq<string>, rs: seq<Reading>, i: nat)
    requires |rs| == |images| && i < |images|
  {
    Reached(rs, i) && !Suppressed(t.blocked, Key(s, images[i]), rs[i].remote)
    && !Suppressed(t.notFound, Key(s, images[i]), rs[i].remote) && rs[i].local == rs[i].remote != ""
  }

  /** Image i was reached, is not suppressed, and runs something else than the registry has. */
  ghost predicate OutOfDate(t: Tables, s: string, images: seq<string>, rs: seq<Reading>, i: nat)
    requires |rs| == |images| && i < |images|
  {
    Reached(rs, i) && !Suppressed(t.blocked, Key(s, images[i]), rs[i].remote)
    && !Suppressed(t.notFound, Key(s, images[i]), rs[i].remote) && rs[i].local != "" && rs[i].local != rs[i].remote
  }

  /** A check finds nothing to deploy exactly when every registry answer came and no image is out of date. */
  lemma NothingToDeploy(t: Tables, s: string, images: seq<string>, rs: seq<Reading>)
    requires |rs| == |images| && Distinct(images)
    ensures var sc := CheckImages(t, s, images, rs);
            (sc.failure.None? && sc.changed == []) <==>
              (forall i :: 0 <= i < |rs| ==> rs[i].Reading?) &&
                  (forall i: nat :: i < |images| ==> !OutOfDate(t, s, images, rs, i))
  {
    hide CheckImages, Key, Suppressed, Times, Get;
    var sc := CheckImages(t, s, images, rs);
    FailureIffUnreached(t, s, images, rs);
    ChangesWereRead(t, s, images, rs);
    forall i: nat | i < |images|
      ensures Reached(rs, i) ==> (HasChange(sc.changed, images[i]) <==> OutOfDate(t, s, images, rs, i))
    {
      ImagesAreIndependent(t, s, images, rs, i);
    }
    if sc.changed != [] { assert sc.changed[0] in sc.changed; }
  }

  /** A check that decides to deploy does so for exactly the images out of date, with the digests read. */
  lemma DeployedExactly(t: Tables, svc: Service, rs: seq<Reading>, status: ContainerStatus)
    requires |rs| == |svc.images| && Distinct(svc.images)
    ensures var next, s := Check(t, svc, rs, status).1, svc.name;
            && (next.Deploy? <==> (forall i :: 0 <= i < |rs| ==> rs[i].Reading?)
                                  && exists i: nat :: i < |rs| && OutOfDate(t, s, svc.images, rs, i))
            && (next.Deploy? ==>
                  && (forall i: nat :: i < |rs| ==>
                        (HasChange(next.changed, svc.images[i]) <==> OutOfDate(t, s, svc.images, rs, i)))
                  && (forall c :: c in next.changed ==> c.oldRef == "" && exists i: nat ::
                        i < |rs| && rs[i] == Reading(c.newDigest, c.oldDigest) && svc.images[i] == c.image))
  {
    hide CheckImages, Key, Suppressed, Times, Get, ClearPollError, TryStart, OutOfDate, HasChange;
    FailureIffUnreached(t, svc.name, svc.images, rs);
    NothingToDeploy(t, svc.name, svc.images, rs);
    ChangesAreThose(t, svc.name, svc.images, rs);
  }

  lemma ChangesAreThose(t: Tables, s: string, images: seq<string>, rs: seq<Reading>)
    requires |rs| == |images| && Distinct(images)
    ensures var changed := CheckImages(t, s, images, rs).changed;
            && (forall i: nat :: i < |rs| && Reached(rs, i) ==>
                  (HasChange(changed, images[i]) <==> OutOfDate(t, s, images, rs, i)))
            && (forall c :: c in changed ==> exists i: nat ::
                  i < |rs| && rs[i] == Reading(c.newDigest, c.oldDigest) && images[i] == c.image && c.oldRef == "")
  {
    hide CheckImages, Key, Suppressed, Times, Get;
    var changed := CheckImages(t, s, images, rs).changed;
    forall i: nat | i < |rs| && Reached(rs, i)
      ensures HasChange(changed, images[i]) <==> OutOfDate(t, s, images, rs, i)
      ensures forall c :: c in changed && c.image == images[i] ==>
                rs[i] == Reading(c.newDigest, c.oldDigest) && c.oldRef == ""
    {
      ImagesAreIndependent(t, s, images, rs, i);
    }
    ChangesWereRead(t, s, images, rs);
    forall c | c in changed
      ensures exists i: nat ::
                i < |rs| && rs[i] == Reading(c.newDigest, c.oldDigest) && images[i] == c.image && c.oldRef == ""
    {
      var i :| 0 <= i < |images| && ReadFor(images, rs, i, c);
      assert rs[i] == Reading(c.newDigest, c.oldDigest);
    }
  }

  lemma PassRepresentative(sc: Scan, s: string, image: string, r: Reading)
    requires sc.failure.None?
    ensures var key, sc' := Key(s, image), CheckImage(sc, s, image, r);
            sc'.representative ==
              if sc.representative == "" && r.Reading? && !Suppressed(sc.t.blocked, key, r.remote)
                 && !Suppressed(sc.t.notFound, key, r.remote) && r.local == r.remote != "" then r.remote
              else sc.representative
  {
    hide Key, Suppressed;
    assert r.Reading? ==> LiftBlock(sc.t, s, Key(s, image), r.remote).notFound == sc.t.notFound;
  }

  lemma LastUpToDate(t: Tables, s: string, images: seq<string>, rs: seq<Reading>)
    requires |rs| == |images| && images != [] && Distinct(images)
    ensures var sc, n := CheckImages(t, s, images[..|images| - 1], rs[..|images| - 1]), |images| - 1;
            CheckImages(t, s, images, rs).representative ==
              if sc.representative == "" && UpToDate(t, s, images, rs, n) then rs[n].remote else sc.representative
  {
    hide Key, CheckImage, Times, Get, Lookup, Suppressed;
    var n := |images| - 1;
    var sc, key := CheckImages(t, s, images[..n], rs[..n]), Key(s, images[n]);
    FailureIffUnreached(t, s, images[..n], rs[..n]);
    LastKeyIsFresh(t, s, images, rs);
    if sc.failure.None? && rs[n].Reading? {
      SameEntrySameSuppression(sc.t.blocked, t.blocked, key, rs[n].remote);
      SameEntrySameSuppression(sc.t.notFound, t.notFound, key, rs[n].remote);
    }
    if sc.failure.None? { PassRepresentative(sc, s, images[n], rs[n]); }
  }

  lemma SameEntrySameSuppression(m: map<string, Digest>, m': map<string, Digest>, key: string, remote: Digest)
    requires Get(m, key) == Get(m', key)
    ensures Suppressed(m, key, remote) == Suppressed(m', key, remote)
  {}

  lemma SameSuppression(t: Tables, t': Tables, key: string)
    requires Lookup(t'.blocked, key) == Lookup(t.blocked, key) && Lookup(t'.notFound, key) == Lookup(t.notFound, key)
    ensures Get(t'.blocked, key) == Get(t.blocked, key) && Get(t'.notFound, key) == Get(t.notFound, key)
  {}

  /** The digest that guards auto-start is that of the first image found up to date, "" if there is none. */
  lemma {:induction false} RepresentativeIsFirst(t: Tables, s: string, images: seq<string>, rs: seq<Reading>)
    requires |rs| == |images| && Distinct(images)
    ensures var d := CheckImages(t, s, images, rs).representative;
            if d == "" then forall j: nat :: j < |images| ==> !UpToDate(t, s, images, rs, j)
            else exists i: nat :: i < |images| && UpToDate(t, s, images, rs, i) && rs[i].remote == d
                   && forall j: nat :: j < i ==> !UpToDate(t, s, images, rs, j)
  {
    hide CheckImages, Key, Suppressed;
    if images == [] {
      NothingRepresented(t, s);
    } else {
      var n := |images| - 1;
      RepresentativeIsFirst(t, s, images[..n], rs[..n]);
      LastUpToDate(t, s, images, rs);
      forall j: nat | j < n ensures UpToDate(t, s, images[..n], rs[..n], j) == UpToDate(t, s, images, rs, j) {
        assert forall k :: 0 <= k <= j ==> rs[..n][k] == rs[k];
      }
    }
  }

  lemma NothingRepresented(t: Tables, s: string)
    ensures CheckImages(t, s, [], []).representative == ""
  {}

  /** A lifted block lowers the service's gauge; only blocks under the service's prefix are lifted. */
  ghost predicate LiftsOnly(t: Tables, t': Tables, s: string) {
    && ((t'.blocked == t.blocked && t'.blockedGauge == t.blockedGauge) || t'.blockedGauge == t.blockedGauge[s := false])
    && (forall k :: k in t.blocked && !HasPrefix(k, s + "/") ==> k in t'.blocked)
  }

  lemma PassLiftsOnly(sc: Scan, s: string, image: string, r: Reading)
    requires sc.failure.None?
    ensures LiftsOnly(sc.t, CheckImage(sc, s, image, r).t, s)
  {
    hide HasPrefix, Key, CheckImage;
    PassOwnEntriesOnly(sc, s, image, r);
    KeyPrefixSelf(s, image);
  }

  lemma {:induction false} LiftingClearsGauge(t: Tables, s: string, images: seq<string>, rs: seq<Reading>)
    requires |rs| == |images|
    ensures LiftsOnly(t, CheckImages(t, s, images, rs).t, s)
  {
    hide HasPrefix, CheckImage;
    if images != [] {
      var n := |images| - 1;
      LiftingClearsGauge(t, s, images[..n], rs[..n]);
      var sc := CheckImages(t, s, images[..n], rs[..n]);
      if sc.failure.None? { PassLiftsOnly(sc, s, images[n], rs[n]); }
    }
  }
}
