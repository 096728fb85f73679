/** Creating, verifying and materializing whole backups: staging, archive and envelope together. */
module BackupService {
  import opened Common
  import opened Inventory
  import opened BackupArchive
  import opened BackupStaging
  import opened BackupVerifier
  import opened BackupWriter
  import E = Envelope

  /** What one backup is made with: its id and time, and the salt and nonce of its envelope. */
  datatype Occasion = Occasion(backupId: string, now: int, header: E.Header, passphrase: string)

  predicate ValidOccasion(c: Occasion) {
    E.ValidHeader(c.header)
  }

  /** The sealed bundle of a backup of these contents. */
  ghost function BundleFor(h: Contents, c: Occasion, x: Codec, e: E.Primitives): Bytes
    requires Faithful(x) && E.Sound(e) && ValidOccasion(c) && Holdable(h, x.checks)
  {
    E.Seal(e, c.header, c.passphrase, x.tar(ArchiveFor(h, c.backupId, c.now, x)))
  }

  /** The bounds of the format: on each file, on the archive, and on the sealed bundle. */
  ghost predicate Within(h: Contents, c: Occasion, x: Codec, e: E.Primitives)
    requires Faithful(x) && E.Sound(e) && ValidOccasion(c) && Holdable(h, x.checks)
  {
    && (forall n | n in Layout(h) :: Fits(n, Layout(h)[n], x))
    && Bounded(h, ManifestFor(h, c.backupId, c.now, x), x)
    && |BundleFor(h, c, x, e)| <= E.MAX_BUNDLE
  }

  /** A Home that can be backed up on this occasion. */
  ghost predicate BackupPossible(o: Owned, c: Occasion, x: Codec, e: E.Primitives)
    requires Faithful(x) && E.Sound(e) && ValidOccasion(c)
  {
    c.passphrase != "" && Structured(o, x.checks) && Within(Held(o, x.checks), c, x, e)
  }

  /** The bundle opens under the passphrase to an archive that is accepted and materializes to these files. */
  ghost predicate Yields(bundle: Bytes, passphrase: string, t: Tree, x: Codec, e: E.Primitives) {
    exists tape, a ::
      E.Opens(e, bundle, passphrase, tape) && x.untar(tape) == Some(a) && Accepted(a, x) && t == Materialized(a, x)
  }

  /** The verified archive of a bundle: size, envelope, tape and archive, in that order. */
  method OpenBundle(bundle: Bytes, passphrase: string, x: Codec, e: E.Primitives) returns (a: Option<Archive>)
    requires E.Sound(e)
    ensures a.Some? ==> exists tape :: E.Opens(e, bundle, passphrase, tape) && x.untar(tape) == a
    ensures a.None? ==> forall tape :: E.Opens(e, bundle, passphrase, tape) ==> x.untar(tape).None?
  {
    hide E.Opens;
    var plain := E.DecryptFile(e, bundle, passphrase);
    if plain.Err? {
      return None;
    }
    forall tape | E.Opens(e, bundle, passphrase, tape)
      ensures tape == plain.bytes
    {
      E.OpensOnce(e, bundle, passphrase, tape, plain.bytes);
    }
    a := x.untar(plain.bytes);
  }

  lemma YieldsByTape(bundle: Bytes, passphrase: string, tape: Bytes, a: Archive, x: Codec, e: E.Primitives)
    requires E.Opens(e, bundle, passphrase, tape) && x.untar(tape) == Some(a)
    ensures forall t :: Yields(bundle, passphrase, t, x, e) <==> Accepted(a, x) && t == Materialized(a, x)
  {
    hide E.Opens, Accepted;
    forall p | E.Opens(e, bundle, passphrase, p)
      ensures p == tape
    {
      E.OpensOnce(e, bundle, passphrase, p, tape);
    }
  }

  /** Materializes exactly the bundles that open to an accepted archive, and what they yield is a complete Home. */
  method MaterializeVerifiedBackup(bundle: Bytes, passphrase: string, x: Codec, e: E.Primitives)
    returns (t: Option<Tree>)
    requires E.Sound(e)
    ensures t.Some? ==> Yields(bundle, passphrase, t.value, x, e) && Verified(Payload(t.value), x.checks)
    ensures t.None? ==> forall u :: !Yields(bundle, passphrase, u, x, e)
  {
    hide E.Opens, Accepted, Verified, Payload;
    var a := OpenBundle(bundle, passphrase, x, e);
    if a.None? {
      return None;
    }
    t := MaterializeArchive(a.value, x);
    ghost var tape :| E.Opens(e, bundle, passphrase, tape) && x.untar(tape) == a;
    YieldsByTape(bundle, passphrase, tape, a.value, x, e);
  }

  /**
    * Succeeds exactly on a complete Home within the bounds of the format, with the sealed bundle of what it holds; the
    * finished bundle is opened and verified before it counts.
    */
  method CreateBackup(o: Owned, c: Occasion, x: Codec, e: E.Primitives) returns (bundle: Option<Bytes>)
    requires Faithful(x) && E.Sound(e) && ValidOccasion(c)
    ensures bundle.Some? <==> BackupPossible(o, c, x, e)
    ensures bundle.Some? ==> bundle.value == BundleFor(Held(o, x.checks), c, x, e)
  {
    hide Faithful, E.Sound, E.Opens, E.Seal, Layout, Rows, Accepted, Bounded, Fits, ValidManifest, Written, Installed;
    var rows := Stage(o, x);
    StageableMeans(o, x);
    if rows.None? {
      return None;
    }
    ghost var h := Held(o, x.checks);
    var m := Manifest(c.backupId, c.now, Components(rows.value));
    HomeManifestIsValid(o, c, x);
    if !ValidManifest(m, x) {
      return None;
    }
    var archive := WriteTar(m, rows.value, x);
    var sealed := E.EncryptFile(e, x.tar(archive), c.header, c.passphrase);
    if sealed.Err? {
      return None;
    }
    HomeBundleOpens(o, c, x, e);
    var found := OpenBundle(sealed.bytes, c.passphrase, x, e);
    assert found == Some(archive);
    var verified := VerifyTar(archive, x);
    WrittenIsAcceptedIff(o, c.backupId, c.now, x);
    if verified.None? {
      return None;
    }
    bundle := Some(sealed.bytes);
  }

  lemma StageableMeans(o: Owned, x: Codec)
    ensures Stageable(o, x) <==>
      Installed(o, x.checks) && forall n | n in Layout(Held(o, x.checks)) :: Fits(n, Layout(Held(o, x.checks))[n], x)
    ensures Installed(o, x.checks) ==> Holdable(Held(o, x.checks), x.checks)
  {
  }

  lemma HomeManifestIsValid(o: Owned, c: Occasion, x: Codec)
    requires Faithful(x) && Stageable(o, x)
    ensures var h := Held(o, x.checks); var m := ManifestFor(h, c.backupId, c.now, x);
      && (ValidManifest(m, x) <==> |Layout(h)| <= 512) && (Bounded(h, m, x) ==> |Layout(h)| <= 512)
  {
    var h := Held(o, x.checks);
    RequiredAreHeld(o, x);
    RowsAreStaged(o, x);
    StagedManifestIsValid(ManifestFor(h, c.backupId, c.now, x), Rows(h, x), Layout(h), x);
    AtLeastThree(Rows(h, x), Layout(h), x);
  }

  lemma HomeBundleOpens(o: Owned, c: Occasion, x: Codec, e: E.Primitives)
    requires Faithful(x) && E.Sound(e) && ValidOccasion(c) && Installed(o, x.checks) && c.passphrase != ""
    requires |BundleFor(Held(o, x.checks), c, x, e)| <= E.MAX_BUNDLE
    ensures var h := Held(o, x.checks); var a := ArchiveFor(h, c.backupId, c.now, x);
      && x.untar(x.tar(a)) == Some(a)
      && forall tape :: E.Opens(e, BundleFor(h, c, x, e), c.passphrase, tape) <==> tape == x.tar(a)
  {
    var h := Held(o, x.checks);
    var a := ArchiveFor(h, c.backupId, c.now, x);
    forall tape
      ensures E.Opens(e, BundleFor(h, c, x, e), c.passphrase, tape) <==> tape == x.tar(a)
    {
      E.SealedOpensIff(e, c.header, c.passphrase, x.tar(a), tape);
    }
  }

  /** What is backed up comes back: a bundle of this Home yields exactly what the Home holds, and nothing else. */
  lemma BackupRoundTrip(o: Owned, c: Occasion, x: Codec, e: E.Primitives)
    requires Faithful(x) && E.Sound(e) && ValidOccasion(c) && BackupPossible(o, c, x, e)
    ensures var h := Held(o, x.checks);
      && (forall t :: Yields(BundleFor(h, c, x, e), c.passphrase, t, x, e) <==> t == Layout(h))
      && Payload(Layout(h)) == h && Verified(h, x.checks)
  {
    hide E.Opens, E.Seal, Layout, Rows, Accepted, Bounded, Fits, ValidManifest, Written, Payload, Verified;
    var h := Held(o, x.checks);
    var a := ArchiveFor(h, c.backupId, c.now, x);
    StageableMeans(o, x);
    HomeManifestIsValid(o, c, x);
    HomeBundleOpens(o, c, x, e);
    WrittenIsAcceptedIff(o, c.backupId, c.now, x);
    HeldHasNoEmptyPackage(o, x);
    HeldIsVerified(o, x.checks);
    YieldsByTape(BundleFor(h, c, x, e), c.passphrase, x.tar(a), a, x, e);
  }

  /** The bounds that recovery knows are those of the format on this occasion. */
  ghost predicate KnowsBounds(c: Occasion, x: Codec, e: E.Primitives)
    requires Faithful(x) && E.Sound(e) && ValidOccasion(c)
  {
    forall h | Holdable(h, x.checks) :: x.checks.bounded(h) <==> Within(h, c, x, e)
  }

  /** Then recovery's checkpoints are these backups: made exactly when one is possible, with the same contents. */
  lemma CheckpointsAreBackups(o: Owned, c: Occasion, x: Codec, e: E.Primitives)
    requires Faithful(x) && E.Sound(e) && ValidOccasion(c) && c.passphrase != "" && KnowsBounds(c, x, e)
    ensures BackupPossible(o, c, x, e) <==> Backupable(o, x.checks)
    ensures BackupPossible(o, c, x, e) ==>
      forall t :: Yields(BundleFor(Held(o, x.checks), c, x, e), c.passphrase, t, x, e)
        ==> Snapshot(o, x.checks) == Some(Payload(t))
  {
    hide Faithful, E.Sound, Within, Yields, Payload, Layout, Installed;
    StageableMeans(o, x);
    if BackupPossible(o, c, x, e) {
      BackupRoundTrip(o, c, x, e);
    }
  }

  // ---------------------------------------------------------------- when a backup can be made

  /** Every file of the contents fits: none too large, and every skill file under a name that is portable and safe. */
  lemma FitIff(h: Contents, x: Codec)
    requires Faithful(x)
    ensures var t := Layout(h);
      (forall n | n in t :: Fits(n, t[n], x) && x.safe(n)) <==>
        && (forall k | k in h.files :: |h.files[k]| <= 0x2000_0000)
        && forall s, f | s in h.skills && f in h.skills[s] ::
             |h.skills[s][f]| <= 0x2000_0000 && x.portable(SkillName(s, f)) && x.safe(SkillName(s, f))
  {
    LayoutMembers(h);
    hide Layout;
    var t := Layout(h);
    if forall n | n in t :: Fits(n, t[n], x) && x.safe(n) {
      forall k | k in h.files
        ensures |h.files[k]| <= 0x2000_0000
      {
        assert StaticName(k) in t;
      }
      forall s, f | s in h.skills && f in h.skills[s]
        ensures |h.skills[s][f]| <= 0x2000_0000 && x.portable(SkillName(s, f)) && x.safe(SkillName(s, f))
      {
        assert SkillName(s, f) in t;
      }
    }
  }

  /**
    * A backup can be made exactly under a passphrase, of a complete Home, when each file, the number of files, the
    * manifest and the bundle stay within their bounds; only the registered packages count.
    */
  lemma BackupPossibleIff(o: Owned, c: Occasion, x: Codec, e: E.Primitives)
    requires Faithful(x) && E.Sound(e) && ValidOccasion(c)
    ensures BackupPossible(o, c, x, e) <==>
      && c.passphrase != "" && Structured(o, x.checks)
      && (forall k | k in o.files :: |o.files[k]| <= 0x2000_0000)
      && (forall s, f | s in Held(o, x.checks).skills && f in o.skills.value[s] ::
            |o.skills.value[s][f]| <= 0x2000_0000 && x.portable(SkillName(s, f)) && x.safe(SkillName(s, f)))
      && |o.files[Identity]| <= 0x8_0000 && |o.files[ConversationHistory]| <= 0x200_0000
      && (ConfigSkills in o.files ==> |o.files[ConfigSkills]| <= 0x8_0000)
      && |Layout(Held(o, x.checks))| <= 512
      && |x.encode(ManifestFor(Held(o, x.checks), c.backupId, c.now, x))| <= 0x8_0000
      && |BundleFor(Held(o, x.checks), c, x, e)| <= 0x8000_0000
  {
    PossibleParts(o, c, x, e);
    hide Faithful, E.Sound, BundleFor, Layout, ManifestFor, Rows;
    hide Within, BackupPossible, Structured, Installed, Holdable;
    if Structured(o, x.checks) {
      HeldParts(o, x.checks);
      hide Held;
      WithinIff(Held(o, x.checks), c, x, e);
    }
  }

  lemma PossibleParts(o: Owned, c: Occasion, x: Codec, e: E.Primitives)
    requires Faithful(x) && E.Sound(e) && ValidOccasion(c)
    ensures Structured(o, x.checks) ==> Installed(o, x.checks) && Holdable(Held(o, x.checks), x.checks)
    ensures BackupPossible(o, c, x, e) <==>
      c.passphrase != "" && Structured(o, x.checks) && Within(Held(o, x.checks), c, x, e)
  {
    hide Faithful, E.Sound, Within;
  }

  lemma HeldParts(o: Owned, k: Checks)
    requires Structured(o, k)
    ensures Installed(o, k) && REQUIRED <= o.files.Keys && Registry(o.files, k).Some? && Held(o, k).files == o.files
    ensures Identity in o.files && ConversationHistory in o.files
    ensures forall s | s in Held(o, k).skills ::
      o.skills.Some? && s in o.skills.value && Held(o, k).skills[s] == o.skills.value[s]
  {
  }

  /** The bounds, file by file. */
  lemma WithinIff(h: Contents, c: Occasion, x: Codec, e: E.Primitives)
    requires Faithful(x) && E.Sound(e) && ValidOccasion(c) && Holdable(h, x.checks)
    requires Identity in h.files && ConversationHistory in h.files && REQUIRED <= h.files.Keys
    ensures Within(h, c, x, e) <==>
      && (forall k | k in h.files :: |h.files[k]| <= 0x2000_0000)
      && (forall s, f | s in h.skills && f in h.skills[s] ::
            |h.skills[s][f]| <= 0x2000_0000 && x.portable(SkillName(s, f)) && x.safe(SkillName(s, f)))
      && |h.files[Identity]| <= 0x8_0000 && |h.files[ConversationHistory]| <= 0x200_0000
      && (ConfigSkills in h.files ==> |h.files[ConfigSkills]| <= 0x8_0000)
      && |Layout(h)| <= 512
      && |x.encode(ManifestFor(h, c.backupId, c.now, x))| <= 0x8_0000
      && |BundleFor(h, c, x, e)| <= 0x8000_0000
  {
    hide Faithful, E.Sound, BundleFor, Layout, ManifestFor, Rows, Fits, Holdable;
    FitIff(h, x);
  }

  /** A Home is complete with the required files, a registry that can be read, and each package as registered. */
  lemma StructuredIff(o: Owned, k: Checks)
    ensures Structured(o, k) <==>
      && Identity in o.files && MemoryDatabase in o.files && ConversationHistory in o.files
      && k.coherent(o.files)
      && (ConfigSkills in o.files ==>
            && k.registry(o.files[ConfigSkills]).Some?
            && forall s | s in k.registry(o.files[ConfigSkills]).value ::
                 && o.skills.Some? && s in o.skills.value
                 && k.inspect(o.skills.value[s]) == Some(k.registry(o.files[ConfigSkills]).value[s]))
  {
    assert REQUIRED <= o.files.Keys <==>
      Identity in o.files && MemoryDatabase in o.files && ConversationHistory in o.files;
  }
}
