/** The file-backed signing key with rotation: every anchor file, the grace list and the
    in-memory copy of that list are state; signatures are a free constructor. */
module Signing {
  import opened Digests

  type Key = nat

  datatype Message = CheckpointMessage(sequence: nat, root: Digest) | EnvelopeMessage(bytes: string)
  datatype Signature = Sig(key: Key, message: Message) | Garbage
  /** A stored public key: raw bytes or PEM of an Ed25519 key, or something else. */
  datatype PublicKey = Raw(key: Key) | Pem(key: Key) | NotEd25519

  predicate VerifyWithPubkey(m: Message, sig: Signature, pub: PublicKey) {
    !pub.NotEd25519? && sig == Sig(pub.key, m)
  }

  /** An entry of grace.json; `file` is the timestamp in the retired file's name. */
  datatype Retired = Retired(file: int, expiresAt: int)

  datatype Anchors = Anchors(current: Key, files: map<int, Key>, grace: seq<Retired>)

  /** One call of `rotate`: its three clock readings (file name, expiry base plus grace, garbage
      collection) and the key it generates. */
  datatype Rotation = Rotation(ts: int, expiresAt: int, gcNow: int, newKey: Key)

  function Live(grace: seq<Retired>, now: int): seq<Retired> {
    if grace == [] then []
    else (if grace[0].expiresAt > now then [grace[0]] else []) + Live(grace[1..], now)
  }

  function Expired(grace: seq<Retired>, now: int): set<int> {
    set r | r in grace && r.expiresAt <= now :: r.file
  }

  function Rotate(a: Anchors, r: Rotation): Anchors {
    var grace := a.grace + [Retired(r.ts, r.expiresAt)];
    Anchors(r.newKey, a.files[r.ts := a.current] - Expired(grace, r.gcNow), Live(grace, r.gcNow))
  }

  function Trusted(a: Anchors, now: int): seq<Key> {
    [a.current] + RetiredKeys(a.files, a.grace, now)
  }

  function RetiredKeys(files: map<int, Key>, grace: seq<Retired>, now: int): seq<Key> {
    if grace == [] then []
    else
      (if grace[0].expiresAt > now && grace[0].file in files then [files[grace[0].file]] else [])
      + RetiredKeys(files, grace[1..], now)
  }

  lemma {:induction false} LiveConcat(a: seq<Retired>, b: seq<Retired>, now: int)
    ensures Live(a + b, now) == Live(a, now) + Live(b, now)
  {
    if a == [] {
      assert a + b == b;
    } else {
      assert (a + b)[1..] == a[1..] + b;
      LiveConcat(a[1..], b, now);
    }
  }

  lemma {:induction false} RetiredKeysConcat(files: map<int, Key>, a: seq<Retired>, b: seq<Retired>, now: int)
    ensures RetiredKeys(files, a + b, now) == RetiredKeys(files, a, now) + RetiredKeys(files, b, now)
  {
    if a == [] {
      assert a + b == b;
    } else {
      assert (a + b)[1..] == a[1..] + b;
      RetiredKeysConcat(files, a[1..], b, now);
    }
  }

  class FileBackend {
    var current: Key
    var currentPub: Key
    var files: map<int, Key>
    var grace: seq<Retired>
    var retired: seq<Retired>

    ghost predicate Valid()
      reads this
    {
      currentPub == current && retired == grace
    }

    function State(): Anchors
      reads this
    {
      Anchors(current, files, grace)
    }

    constructor Bootstrap(key: Key)
      ensures Valid() && State() == Anchors(key, map[], [])
    {
      current, currentPub, files, grace, retired := key, key, map[], [], [];
    }

    /** What it signs verifies under the key it publishes, and under the trust anchors at any time. */
    method Sign(m: Message) returns (sig: Signature)
      ensures sig == Sig(current, m)
      ensures Valid() ==> VerifyWithPubkey(m, sig, Pem(currentPub))
      ensures Valid() ==> forall now :: sig.key in Trusted(State(), now)
    {
      sig := Sig(current, m);
    }

    /** The key under which everything signed from now on until the next rotation verifies. */
    method PublicKeyBytes() returns (pub: PublicKey)
      ensures pub == Pem(currentPub)
      ensures Valid() ==> forall m, sig :: VerifyWithPubkey(m, sig, pub) <==> sig == Sig(current, m)
    {
      pub := Pem(currentPub);
    }

    method RotateKey(r: Rotation)
      requires Valid()
      modifies this
      ensures Valid() && State() == Rotate(old(State()), r)
    {
      files := files[r.ts := currentPub];
      current, currentPub := r.newKey, r.newKey;
      var all := grace + [Retired(r.ts, r.expiresAt)];
      var kept := [];
      var i := 0;
      ghost var written := files;
      while i < |all|
        invariant 0 <= i <= |all|
        invariant kept == Live(all[..i], r.gcNow)
        invariant files == written - Expired(all[..i], r.gcNow)
        invariant current == currentPub == r.newKey
      {
        LiveConcat(all[..i], [all[i]], r.gcNow);
        assert all[..i + 1] == all[..i] + [all[i]];
        if all[i].expiresAt > r.gcNow {
          assert Expired(all[..i + 1], r.gcNow) == Expired(all[..i], r.gcNow);
          kept := kept + [all[i]];
        } else {
          assert Expired(all[..i + 1], r.gcNow) == Expired(all[..i], r.gcNow) + {all[i].file};
          if all[i].file in files {
            files := files - {all[i].file};
          }
        }
        i := i + 1;
      }
      assert all[..i] == all;
      grace := kept;
      retired := kept;
    }

    method TrustAnchors(now: int) returns (anchors: seq<Key>)
      requires Valid()
      ensures anchors == Trusted(State(), now)
    {
      anchors := [currentPub];
      var i := 0;
      while i < |retired|
        invariant 0 <= i <= |retired|
        invariant anchors == [currentPub] + RetiredKeys(files, retired[..i], now)
      {
        RetiredKeysConcat(files, retired[..i], [retired[i]], now);
        assert retired[..i + 1] == retired[..i] + [retired[i]];
        if retired[i].expiresAt > now && retired[i].file in files {
          anchors := anchors + [files[retired[i].file]];
        }
        i := i + 1;
      }
      assert retired[..i] == retired;
    }

    /** `verify`: some trusted anchor checks the signature. */
    method Verify(m: Message, sig: Signature, now: int) returns (ok: bool)
      requires Valid()
      ensures ok <==> sig.Sig? && sig.message == m && sig.key in Trusted(State(), now)
    {
      var anchors := TrustAnchors(now);
      var i := 0;
      while i < |anchors|
        invariant 0 <= i <= |anchors|
        invariant forall j | 0 <= j < i :: sig != Sig(anchors[j], m)
      {
        if VerifyWithPubkey(m, sig, Pem(anchors[i])) {
          return true;
        }
        i := i + 1;
      }
      ok := false;
    }
  }

  // ---------------------------------------------------------------- whole runs of rotations

  function AfterRotations(first: Key, rs: seq<Rotation>): Anchors {
    if rs == [] then Anchors(first, map[], [])
    else Rotate(AfterRotations(first, rs[..|rs| - 1]), rs[|rs| - 1])
  }

  /** The key that rotation `i` retires. */
  function RetiredBy(first: Key, rs: seq<Rotation>, i: nat): Key
    requires i < |rs|
  {
    if i == 0 then first else rs[i - 1].newKey
  }

  function Retirement(r: Rotation): Retired {
    Retired(r.ts, r.expiresAt)
  }

  /** The list entry of rotation `m` outlives the collections of rotations `m` to `j - 1`. */
  predicate Survives(rs: seq<Rotation>, m: nat, j: nat)
    requires m < |rs| && j <= |rs|
  {
    forall l | m <= l < j :: rs[m].expiresAt > rs[l].gcNow
  }

  ghost predicate Listed(rs: seq<Rotation>, x: Retired) {
    exists m :: 0 <= m < |rs| && Retirement(rs[m]) == x && Survives(rs, m, |rs|)
  }

  /** No entry of the same file name that was listed when rotation `i` wrote the file has been
      collected since: collecting an entry unlinks its file. */
  predicate Unswept(rs: seq<Rotation>, i: nat)
    requires i < |rs|
  {
    forall m | 0 <= m <= i && rs[m].ts == rs[i].ts && Survives(rs, m, i) :: Survives(rs, m, |rs|)
  }

  /** The last rotation that wrote this file name. */
  function Holder(rs: seq<Rotation>, file: int): (r: Option<nat>)
    ensures r.Some? ==> r.value < |rs| && rs[r.value].ts == file
  {
    if rs == [] then None
    else if rs[|rs| - 1].ts == file then Some(|rs| - 1)
    else Holder(rs[..|rs| - 1], file)
  }

  lemma {:induction false} HolderIsLast(rs: seq<Rotation>, i: nat)
    requires i < |rs|
    ensures Holder(rs, rs[i].ts).Some? && i <= Holder(rs, rs[i].ts).value
    ensures Holder(rs, rs[i].ts) == Some(i) <==> forall j | i < j < |rs| :: rs[j].ts != rs[i].ts
    decreases |rs|
  {
    if rs[|rs| - 1].ts != rs[i].ts { HolderIsLast(rs[..|rs| - 1], i); }
  }

  /** A file exists exactly when some rotation wrote it and it was not unlinked since; it then
      holds the key the last writer retired. */
  predicate FileMatches(first: Key, rs: seq<Rotation>, files: map<int, Key>, file: int) {
    var holder := Holder(rs, file);
    if holder.None? then file !in files
    else
      && (file in files <==> Unswept(rs, holder.value))
      && (file in files ==> files[file] == RetiredBy(first, rs, holder.value))
  }

  lemma {:induction false} LiveMembers(grace: seq<Retired>, now: int, r: Retired)
    ensures r in Live(grace, now) <==> r in grace && r.expiresAt > now
  {
    if grace != [] { LiveMembers(grace[1..], now, r); }
  }

  lemma SurvivesOneMore(before: seq<Rotation>, last: Rotation, m: nat)
    requires m <= |before|
    ensures var rs := before + [last];
            && (m < |before| ==> (Survives(rs, m, |before|) <==> Survives(before, m, |before|)))
            && (Survives(rs, m, |rs|) <==> Survives(rs, m, |before|) && rs[m].expiresAt > last.gcNow)
  {
    var rs := before + [last];
    assert rs[|before|] == last;
    if m < |before| { assert forall l | m <= l < |before| :: rs[l] == before[l]; }
  }

  lemma ListedOneMore(before: seq<Rotation>, last: Rotation, x: Retired)
    ensures Listed(before + [last], x) <==>
            (Listed(before, x) || x == Retirement(last)) && x.expiresAt > last.gcNow
  {
    var rs := before + [last];
    if Listed(rs, x) {
      var m :| 0 <= m < |rs| && Retirement(rs[m]) == x && Survives(rs, m, |rs|);
      SurvivesOneMore(before, last, m);
      if m < |before| { assert Retirement(before[m]) == x; }
    }
    if Listed(before, x) {
      var m :| 0 <= m < |before| && Retirement(before[m]) == x && Survives(before, m, |before|);
      SurvivesOneMore(before, last, m);
      assert Retirement(rs[m]) == x;
    }
    SurvivesOneMore(before, last, |before|);
    assert Retirement(rs[|before|]) == Retirement(last);
  }

  /** A collection unlinks a file exactly when a listed entry of that name expired. */
  ghost predicate Collected(before: seq<Rotation>, last: Rotation, file: int) {
    exists m :: 0 <= m <= |before| && Collects(before + [last], m, file)
  }

  predicate Collects(rs: seq<Rotation>, m: nat, file: int)
    requires m < |rs|
  {
    rs[m].ts == file && Survives(rs, m, |rs| - 1) && !Survives(rs, m, |rs|)
  }

  lemma CollectedExactly(before: seq<Rotation>, last: Rotation, grace: seq<Retired>, file: int)
    requires forall x :: x in grace <==> Listed(before, x)
    ensures file in Expired(grace + [Retirement(last)], last.gcNow) <==> Collected(before, last, file)
  {
    var rs, all := before + [last], grace + [Retirement(last)];
    assert all[|grace|] == Retirement(last);
    if file in Expired(all, last.gcNow) {
      var x :| x in all && x.expiresAt <= last.gcNow && x.file == file;
      var m := |before|;
      if x in grace {
        m :| 0 <= m < |before| && Retirement(before[m]) == x && Survives(before, m, |before|);
      }
      SurvivesOneMore(before, last, m);
      assert Collects(rs, m, file);
    }
    if Collected(before, last, file) {
      var m :| 0 <= m <= |before| && Collects(rs, m, file);
      SurvivesOneMore(before, last, m);
      if m < |before| { assert Listed(before, Retirement(before[m])); }
      assert Retirement(rs[m]) in all && Retirement(rs[m]).expiresAt <= last.gcNow;
    }
  }

  /** The file just written stays exactly when no listed entry of its name is collected. */
  lemma NewFileUnswept(before: seq<Rotation>, last: Rotation)
    ensures Unswept(before + [last], |before|) <==> !Collected(before, last, last.ts)
  {
    var rs := before + [last];
    if Unswept(rs, |before|) {
      forall m | 0 <= m <= |before|
        ensures !Collects(rs, m, last.ts)
      {
      }
    }
    if !Collected(before, last, last.ts) {
      forall m | 0 <= m <= |before| && rs[m].ts == rs[|before|].ts && Survives(rs, m, |before|)
        ensures Survives(rs, m, |rs|)
      {
        assert !Collects(rs, m, last.ts);
      }
    }
  }

  lemma SurvivesShorter(before: seq<Rotation>, last: Rotation, m: nat, i: nat)
    requires m <= i < |before|
    ensures Survives(before + [last], m, i) <==> Survives(before, m, i)
    ensures Survives(before, m, |before|) ==> Survives(before, m, i)
  {
    assert forall l | m <= l < |before| :: (before + [last])[l] == before[l];
  }

  /** An older file stays exactly when it was there and no listed entry of its name is collected. */
  lemma OldFileUnswept(before: seq<Rotation>, last: Rotation, i: nat)
    requires i < |before| && Holder(before, before[i].ts) == Some(i) && last.ts != before[i].ts
    ensures Unswept(before + [last], i) <==> Unswept(before, i) && !Collected(before, last, before[i].ts)
  {
    var rs, file := before + [last], before[i].ts;
    HolderIsLast(before, i);
    if Unswept(rs, i) {
      forall m | 0 <= m <= i && before[m].ts == file && Survives(before, m, i)
        ensures Survives(before, m, |before|)
      {
        SurvivesShorter(before, last, m, i);
        SurvivesOneMore(before, last, m);
      }
      forall m | 0 <= m <= |before|
        ensures !Collects(rs, m, file)
      {
        if rs[m].ts == file && Survives(rs, m, |rs| - 1) {
          SurvivesOneMore(before, last, m);
          SurvivesShorter(before, last, m, i);
        }
      }
    }
    if Unswept(before, i) && !Collected(before, last, file) {
      forall m | 0 <= m <= i && rs[m].ts == file && Survives(rs, m, i)
        ensures Survives(rs, m, |rs|)
      {
        SurvivesShorter(before, last, m, i);
        SurvivesOneMore(before, last, m);
        assert !Collects(rs, m, file);
      }
    }
  }

  lemma FileMatchesOneMore(first: Key, before: seq<Rotation>, last: Rotation, a: Anchors, file: int)
    requires FileMatches(first, before, a.files, file)
    requires a.current == if before == [] then first else before[|before| - 1].newKey
    requires forall x :: x in a.grace <==> Listed(before, x)
    ensures FileMatches(first, before + [last], Rotate(a, last).files, file)
  {
    CollectedExactly(before, last, a.grace, file);
    assert (before + [last])[..|before|] == before;
    if file == last.ts {
      NewFileUnswept(before, last);
    } else if Holder(before, file).Some? {
      OldFileUnswept(before, last, Holder(before, file).value);
    }
  }

  /** After any run of rotations, whatever the clock does: the grace list holds exactly the entries
      that outlived every collection, and each file exactly what its last writer retired. */
  lemma {:induction false} RotationsMatch(first: Key, rs: seq<Rotation>)
    ensures var a := AfterRotations(first, rs);
            && a.current == (if rs == [] then first else rs[|rs| - 1].newKey)
            && (forall x :: x in a.grace <==> Listed(rs, x))
            && (forall file: int :: FileMatches(first, rs, a.files, file))
    decreases |rs|
  {
    if rs != [] {
      var before, last := rs[..|rs| - 1], rs[|rs| - 1];
      RotationsMatch(first, before);
      var a := AfterRotations(first, before);
      assert rs == before + [last];
      forall x
        ensures x in Rotate(a, last).grace <==> Listed(rs, x)
      {
        LiveMembers(a.grace + [Retirement(last)], last.gcNow, x);
        ListedOneMore(before, last, x);
      }
      forall file: int
        ensures FileMatches(first, rs, Rotate(a, last).files, file)
      {
        FileMatchesOneMore(first, before, last, a, file);
      }
    }
  }

  // ---------------------------------------------------------------- which keys are trusted

  lemma {:induction false} RetiredKeysMembers(files: map<int, Key>, grace: seq<Retired>, now: int, k: Key)
    ensures k in RetiredKeys(files, grace, now) <==>
            exists r :: r in grace && r.expiresAt > now && r.file in files && files[r.file] == k
  {
    if grace != [] { RetiredKeysMembers(files, grace[1..], now, k); }
  }

  predicate NameReused(rs: seq<Rotation>, i: nat)
    requires i < |rs|
  {
    exists j :: i < j < |rs| && rs[j].ts == rs[i].ts
  }

  /** Some entry of that file name is still listed with an open window. */
  ghost predicate WindowOpen(rs: seq<Rotation>, i: nat, now: int)
    requires i < |rs|
  {
    exists m :: 0 <= m <= i && rs[m].ts == rs[i].ts && rs[m].expiresAt > now && Survives(rs, m, |rs|)
  }

  /** The key retired by rotation `i` is published: no later rotation reused its file name, no
      listed entry of that name was collected since, and one of them has an open window. */
  ghost predicate Published(rs: seq<Rotation>, i: nat, now: int)
    requires i < |rs|
  {
    !NameReused(rs, i) && Unswept(rs, i) && WindowOpen(rs, i, now)
  }

  ghost predicate PublishedKey(first: Key, rs: seq<Rotation>, now: int, k: Key) {
    exists i :: 0 <= i < |rs| && RetiredBy(first, rs, i) == k && Published(rs, i, now)
  }

  lemma AnchorIsPublished(first: Key, rs: seq<Rotation>, now: int, r: Retired)
    requires Listed(rs, r) && r.expiresAt > now && r.file in AfterRotations(first, rs).files
    ensures PublishedKey(first, rs, now, AfterRotations(first, rs).files[r.file])
  {
    var files := AfterRotations(first, rs).files;
    RotationsMatch(first, rs);
    assert FileMatches(first, rs, files, r.file);
    var m :| 0 <= m < |rs| && Retirement(rs[m]) == r && Survives(rs, m, |rs|);
    HolderIsLast(rs, m);
    var i := Holder(rs, r.file).value;
    HolderIsLast(rs, i);
    assert RetiredBy(first, rs, i) == files[r.file] && Published(rs, i, now);
  }

  lemma PublishedIsAnchor(first: Key, rs: seq<Rotation>, now: int, i: nat)
    requires i < |rs| && Published(rs, i, now)
    ensures RetiredBy(first, rs, i) in Trusted(AfterRotations(first, rs), now)
  {
    var a := AfterRotations(first, rs);
    RotationsMatch(first, rs);
    HolderIsLast(rs, i);
    assert FileMatches(first, rs, a.files, rs[i].ts);
    var m :| 0 <= m <= i && rs[m].ts == rs[i].ts && rs[m].expiresAt > now && Survives(rs, m, |rs|);
    assert Listed(rs, Retirement(rs[m]));
    RetiredKeysMembers(a.files, a.grace, now, RetiredBy(first, rs, i));
  }

  /** Dual publishing over every run of rotations, with any clock and any timestamps: a key is a
      trust anchor if and only if it is current or published. */
  lemma TrustedExactly(first: Key, rs: seq<Rotation>, now: int, k: Key)
    ensures k in Trusted(AfterRotations(first, rs), now) <==>
            k == AfterRotations(first, rs).current || PublishedKey(first, rs, now, k)
  {
    var a := AfterRotations(first, rs);
    RetiredKeysMembers(a.files, a.grace, now, k);
    if k in RetiredKeys(a.files, a.grace, now) {
      RotationsMatch(first, rs);
      var r :| r in a.grace && r.expiresAt > now && r.file in a.files && a.files[r.file] == k;
      AnchorIsPublished(first, rs, now, r);
    }
    if PublishedKey(first, rs, now, k) {
      var i :| 0 <= i < |rs| && RetiredBy(first, rs, i) == k && Published(rs, i, now);
      PublishedIsAnchor(first, rs, now, i);
    }
  }

  predicate KeysDiffer(first: Key, rs: seq<Rotation>) {
    && (forall i | 0 <= i < |rs| :: rs[i].newKey != first)
    && (forall i, j | 0 <= i < j < |rs| :: rs[i].newKey != rs[j].newKey)
  }

  lemma SameKeySameRotation(first: Key, rs: seq<Rotation>, i: nat, j: nat)
    requires KeysDiffer(first, rs) && i < |rs| && j < |rs| && RetiredBy(first, rs, i) == RetiredBy(first, rs, j)
    ensures i == j
  {
  }

  /** A retired key inside its own window is trusted if and only if no later rotation reused its
      timestamp and no listed entry with that timestamp was collected since it was retired. */
  lemma KeyInGraceTrustedExactly(first: Key, rs: seq<Rotation>, now: int, i: nat)
    requires KeysDiffer(first, rs) && i < |rs| && rs[i].expiresAt > now
    ensures RetiredBy(first, rs, i) in Trusted(AfterRotations(first, rs), now) <==> !NameReused(rs, i) && Unswept(rs, i)
  {
    var k := RetiredBy(first, rs, i);
    TrustedExactly(first, rs, now, k);
    RotationsMatch(first, rs);
    if PublishedKey(first, rs, now, k) {
      var j :| 0 <= j < |rs| && RetiredBy(first, rs, j) == k && Published(rs, j, now);
      SameKeySameRotation(first, rs, i, j);
    }
    if !NameReused(rs, i) && Unswept(rs, i) {
      assert Survives(rs, i, i);
      assert Published(rs, i, now);
    }
  }

  /** The clock moves on between two rotations and does not run backwards inside one. */
  predicate WellTimed(rs: seq<Rotation>) {
    && (forall i | 0 <= i < |rs| :: rs[i].ts <= rs[i].gcNow)
    && (forall i, j | 0 <= i < j < |rs| :: rs[i].gcNow < rs[j].ts)
  }

  lemma PublishedWhenWellTimed(rs: seq<Rotation>, i: nat, now: int)
    requires WellTimed(rs) && i < |rs| && rs[|rs| - 1].gcNow <= now
    ensures Published(rs, i, now) <==> rs[i].expiresAt > now
  {
    forall j | 0 <= j < |rs| && j != i
      ensures rs[j].ts != rs[i].ts
    {
      assert rs[j].ts <= rs[j].gcNow && rs[i].ts <= rs[i].gcNow;
    }
    if rs[i].expiresAt > now {
      forall l | i <= l < |rs|
        ensures rs[i].expiresAt > rs[l].gcNow
      {
        assert l < |rs| - 1 ==> rs[l].gcNow < rs[|rs| - 1].ts <= rs[|rs| - 1].gcNow;
      }
      assert Survives(rs, i, |rs|);
    }
  }

  /** What the design promises of a key: current, or retired with an open window. */
  ghost predicate Promised(first: Key, rs: seq<Rotation>, now: int, k: Key) {
    || k == AfterRotations(first, rs).current
    || exists i :: 0 <= i < |rs| && rs[i].expiresAt > now && RetiredBy(first, rs, i) == k
  }

  ghost predicate PromiseKept(first: Key, rs: seq<Rotation>, now: int) {
    forall k :: k in Trusted(AfterRotations(first, rs), now) <==> Promised(first, rs, now, k)
  }

  /** Each retired key is published exactly while its own window is open. */
  ghost predicate OwnWindows(rs: seq<Rotation>, now: int) {
    forall i | 0 <= i < |rs| :: Published(rs, i, now) <==> rs[i].expiresAt > now
  }

  lemma OwnWindowsKeepPromise(first: Key, rs: seq<Rotation>, now: int)
    requires OwnWindows(rs, now)
    ensures PromiseKept(first, rs, now)
  {
    forall k
      ensures k in Trusted(AfterRotations(first, rs), now) <==> Promised(first, rs, now, k)
    {
      TrustedExactly(first, rs, now, k);
      if PublishedKey(first, rs, now, k) {
        var i :| 0 <= i < |rs| && RetiredBy(first, rs, i) == k && Published(rs, i, now);
        assert rs[i].expiresAt > now;
      }
      if i :| 0 <= i < |rs| && rs[i].expiresAt > now && RetiredBy(first, rs, i) == k {
        assert Published(rs, i, now);
      }
    }
  }

  lemma PromiseNeedsOwnWindow(first: Key, rs: seq<Rotation>, now: int, i: nat)
    requires KeysDiffer(first, rs) && PromiseKept(first, rs, now) && i < |rs|
    ensures Published(rs, i, now) <==> rs[i].expiresAt > now
  {
    var k := RetiredBy(first, rs, i);
    TrustedExactly(first, rs, now, k);
    RotationsMatch(first, rs);
    assert k in Trusted(AfterRotations(first, rs), now) <==> Promised(first, rs, now, k);
    if PublishedKey(first, rs, now, k) {
      var j :| 0 <= j < |rs| && RetiredBy(first, rs, j) == k && Published(rs, j, now);
      SameKeySameRotation(first, rs, i, j);
    }
    if j :| 0 <= j < |rs| && rs[j].expiresAt > now && RetiredBy(first, rs, j) == k {
      SameKeySameRotation(first, rs, i, j);
    }
  }

  /** The promise, that a key is trusted exactly while it is current or in its grace window, is kept
      if every retired key is published exactly while its own window is open, and with distinct keys
      only then. A clock that moves on between rotations always keeps it. */
  lemma TrustedExactlyWhileCurrentOrInGrace(first: Key, rs: seq<Rotation>, now: int)
    ensures OwnWindows(rs, now) ==> PromiseKept(first, rs, now)
    ensures KeysDiffer(first, rs) && PromiseKept(first, rs, now) ==> OwnWindows(rs, now)
    ensures WellTimed(rs) && (rs != [] ==> rs[|rs| - 1].gcNow <= now) ==> PromiseKept(first, rs, now)
  {
    if WellTimed(rs) && (rs != [] ==> rs[|rs| - 1].gcNow <= now) {
      forall i | 0 <= i < |rs|
        ensures Published(rs, i, now) <==> rs[i].expiresAt > now
      {
        PublishedWhenWellTimed(rs, i, now);
      }
    }
    if OwnWindows(rs, now) { OwnWindowsKeepPromise(first, rs, now); }
    if KeysDiffer(first, rs) && PromiseKept(first, rs, now) {
      forall i | 0 <= i < |rs|
        ensures Published(rs, i, now) <==> rs[i].expiresAt > now
      {
        PromiseNeedsOwnWindow(first, rs, now, i);
      }
    }
  }

  /** Two rotations in the same microsecond share a file name and the first key is forgotten. */
  lemma RotationsInOneInstantForgetAKey(first: Key, a: Rotation, b: Rotation, now: int)
    requires KeysDiffer(first, [a, b]) && a.ts == b.ts && a.expiresAt > now
    ensures first !in Trusted(AfterRotations(first, [a, b]), now)
  {
    var rs := [a, b];
    KeyInGraceTrustedExactly(first, rs, now, 0);
    assert rs[1].ts == rs[0].ts;
  }

  /** A shared file goes with the first of its entries to expire: key 2 is retired at 5 until 100,
      and the collection at 8 of the other entry of that instant takes its file. */
  lemma SharedFileGoesWithItsTwin()
    ensures 2 !in Trusted(AfterRotations(1, [Rotation(5, 6, 5, 2), Rotation(5, 100, 5, 3), Rotation(8, 100, 8, 4)]), 9)
  {
    var rs := [Rotation(5, 6, 5, 2), Rotation(5, 100, 5, 3), Rotation(8, 100, 8, 4)];
    KeyInGraceTrustedExactly(1, rs, 9, 1);
    assert Survives(rs, 0, 1) && rs[2].gcNow == 8;
  }
}
