/** Writing the archive of a staged Home, what the verifier makes of it, and materializing it again. */
module BackupWriter {
  import opened Common
  import opened Inventory
  import opened BackupArchive
  import opened BackupStaging
  import opened BackupVerifier

  // ---------------------------------------------------------------- writing

  function Components(rows: seq<Staged>): seq<Component> {
    seq(|rows|, i requires 0 <= i < |rows| => rows[i].component)
  }

  function Members(rows: seq<Staged>): Archive {
    seq(|rows|, i requires 0 <= i < |rows| => Member(rows[i].component.path, rows[i].content))
  }

  /** The manifest first, then each row in order. */
  method WriteTar(m: Manifest, rows: seq<Staged>, x: Codec) returns (a: Archive)
    ensures a == Written(m, rows, x)
  {
    a := [Member(ManifestName, x.encode(m))];
    for i := 0 to |rows|
      invariant a == [Member(ManifestName, x.encode(m))] + Members(rows[..i])
    {
      assert Members(rows[..i + 1]) == Members(rows[..i]) + [Member(rows[i].component.path, rows[i].content)];
      a := a + [Member(rows[i].component.path, rows[i].content)];
    }
    assert rows[..|rows|] == rows;
  }

  // ---------------------------------------------------------------- what is written is accepted

  function Written(m: Manifest, rows: seq<Staged>, x: Codec): Archive {
    [Member(ManifestName, x.encode(m))] + Members(rows)
  }

  lemma RowsAreFromTree(rows: seq<Staged>, t: Tree, x: Codec)
    requires StagedFrom(rows, t.Keys, t, x)
    ensures forall i | 0 <= i < |rows| ::
      rows[i].component.path in t && rows[i] == RowFor(rows[i].component.path, t[rows[i].component.path], x)
  {
    forall i | 0 <= i < |rows|
      ensures rows[i].component.path in t && rows[i] == RowFor(rows[i].component.path, t[rows[i].component.path], x)
    {
      assert rows[i] in rows;
    }
  }

  /** Only payload names: no static or skill file is called like the manifest. */
  predicate PayloadNames(t: Tree) {
    forall n | n in t :: n.StaticName? || n.SkillName?
  }

  lemma WrittenNamesDiffer(m: Manifest, rows: seq<Staged>, t: Tree, x: Codec)
    requires StagedFrom(rows, t.Keys, t, x) && PayloadNames(t)
    ensures DistinctNames(Written(m, rows, x))
  {
    RowsAreFromTree(rows, t, x);
  }

  lemma WrittenExtracts(m: Manifest, rows: seq<Staged>, t: Tree, x: Codec)
    requires StagedFrom(rows, t.Keys, t, x) && PayloadNames(t)
    ensures Extract(Written(m, rows, x)) == t[ManifestName := x.encode(m)]
  {
    hide StagedFrom, Extract, RowFor, PayloadNames, DistinctNames;
    var a, u := Written(m, rows, x), t[ManifestName := x.encode(m)];
    WrittenNamesDiffer(m, rows, t, x);
    ExtractIsTheMembers(a);
    WrittenMembers(m, rows, t, x);
    PayloadIsNotManifest(t);
    hide Written;
    forall n | n in t
      ensures n in Extract(a) && Extract(a)[n] == t[n]
    {
      assert Member(n, t[n]) in a;
    }
    assert Extract(a).Keys == u.Keys;
  }

  lemma WrittenMembers(m: Manifest, rows: seq<Staged>, t: Tree, x: Codec)
    requires StagedFrom(rows, t.Keys, t, x)
    ensures var a := Written(m, rows, x);
      && Member(ManifestName, x.encode(m)) in a && (forall n | n in t :: Member(n, t[n]) in a)
      && forall e | e in a :: e.name == ManifestName || e.name in t
  {
    hide StagedFrom, RowFor;
    var a := Written(m, rows, x);
    RowsCover(rows, t, x);
    MembersOfTree(rows, t, x);
    assert a[0] == Member(ManifestName, x.encode(m));
    forall n | n in t
      ensures Member(n, t[n]) in a
    {
      var i :| 0 <= i < |rows| && rows[i].component.path == n;
      assert a[i + 1] == Member(n, t[n]);
    }
  }

  lemma PayloadIsNotManifest(t: Tree)
    requires PayloadNames(t)
    ensures ManifestName !in t
  {
  }

  lemma MembersOfTree(rows: seq<Staged>, t: Tree, x: Codec)
    requires StagedFrom(rows, t.Keys, t, x)
    ensures |Members(rows)| == |rows|
    ensures forall i | 0 <= i < |rows| ::
      rows[i].component.path in t && Members(rows)[i] == Member(rows[i].component.path, t[rows[i].component.path])
  {
    RowsAreFromTree(rows, t, x);
  }

  /** As many distinct rows as names: every name has its row. */
  lemma RowsCover(rows: seq<Staged>, t: Tree, x: Codec)
    requires StagedFrom(rows, t.Keys, t, x)
    ensures PathsOf(Components(rows)) == t.Keys
    ensures forall n | n in t :: exists i :: 0 <= i < |rows| && rows[i].component.path == n
  {
    var cs := Components(rows);
    PathsAreDistinct(cs);
    forall c | c in cs
      ensures c.path in t
    {
      var i :| 0 <= i < |cs| && cs[i] == c;
      assert rows[i] in rows;
    }
    SubsetOfSameSize(PathsOf(cs), t.Keys);
    forall n | n in t
      ensures exists i :: 0 <= i < |rows| && rows[i].component.path == n
    {
      assert n in PathsOf(cs);
      var c :| c in cs && c.path == n;
      var i :| 0 <= i < |cs| && cs[i] == c;
      assert rows[i].component.path == n;
    }
  }

  lemma SubsetOfSameSize<T>(a: set<T>, b: set<T>)
    requires a <= b && |a| == |b|
    ensures a == b
  {
    assert |b - a| == 0;
    assert b == a + (b - a);
  }

  lemma HeldHasNoEmptyPackage(o: Owned, x: Codec)
    requires Installed(o, x.checks) && Faithful(x)
    ensures NoEmptyPackage(Held(o, x.checks)) && PayloadNames(Layout(Held(o, x.checks)))
    ensures Payload(Layout(Held(o, x.checks))) == Held(o, x.checks)
  {
    var h := Held(o, x.checks);
    assert NoEmptyPackage(h);
    LayoutMembers(h);
    hide Layout;
    LayoutRoundTrip(h);
  }

  lemma SafelyNamedIsReadable(m: Manifest, rows: seq<Staged>, t: Tree, x: Codec)
    requires Faithful(x) && |x.encode(m)| <= MAX_SMALL_BYTES && |rows| <= 512
    requires StagedFrom(rows, t.Keys, t, x) && PayloadNames(t)
    requires forall n | n in t :: Fits(n, t[n], x) && x.safe(n)
    ensures Readable(Written(m, rows, x), x)
  {
    var a := Written(m, rows, x);
    assert x.safe(ManifestName);
    WrittenNamesDiffer(m, rows, t, x);
    MembersOfTree(rows, t, x);
    hide StagedFrom, RowFor, DistinctNames, Faithful, PayloadNames;
    forall i | 0 <= i < |a|
      ensures x.safe(a[i].name) && |a[i].content| <= MAX_COMPONENT_BYTES
    {
      if i > 0 {
        assert a[i] == Members(rows)[i - 1];
      }
    }
  }

  lemma ReadableIsSafelyNamed(m: Manifest, rows: seq<Staged>, t: Tree, x: Codec)
    requires StagedFrom(rows, t.Keys, t, x) && Readable(Written(m, rows, x), x)
    ensures forall n | n in t :: x.safe(n)
  {
    hide StagedFrom, RowFor, DistinctNames;
    var a := Written(m, rows, x);
    MembersOfTree(rows, t, x);
    RowsCover(rows, t, x);
    forall n | n in t
      ensures x.safe(n)
    {
      var i :| 0 <= i < |rows| && rows[i].component.path == n;
      assert a[i + 1] in a && a[i + 1].name == n;
    }
  }

  predicate PayloadName(n: Name) {
    n.StaticName? || n.SkillName?
  }

  lemma DifferentNamesDifferentIds(a: Name, b: Name, x: Codec)
    requires Faithful(x) && PayloadName(a) && PayloadName(b) && a != b
    ensures IdOf(a, x) != IdOf(b, x)
  {
  }

  lemma RowComponents(rows: seq<Staged>, t: Tree, x: Codec)
    requires StagedFrom(rows, t.Keys, t, x) && PayloadNames(t)
    ensures forall i | 0 <= i < |rows| ::
      var c := Components(rows)[i];
      && c.path in t && PayloadName(c.path) && c.id == IdOf(c.path, x) && Bound(c)
    ensures forall i, j | 0 <= i < j < |rows| :: Components(rows)[i].path != Components(rows)[j].path
  {
    RowsAreFromTree(rows, t, x);
  }

  lemma WrittenIdsDiffer(rows: seq<Staged>, t: Tree, x: Codec)
    requires Faithful(x) && StagedFrom(rows, t.Keys, t, x) && PayloadNames(t)
    ensures DistinctComponents(Components(rows))
  {
    hide Faithful, StagedFrom, IdOf, PayloadName, PayloadNames, Bound;
    RowComponents(rows, t, x);
    var cs := Components(rows);
    forall i, j | 0 <= i < j < |cs|
      ensures cs[i].id != cs[j].id && cs[i].path != cs[j].path
    {
      DifferentNamesDifferentIds(cs[i].path, cs[j].path, x);
    }
  }

  lemma WrittenInventoryIsValid(rows: seq<Staged>, t: Tree, x: Codec)
    requires Faithful(x) && StagedFrom(rows, t.Keys, t, x) && PayloadNames(t)
    requires forall k | k in REQUIRED :: StaticName(k) in t
    ensures ValidInventory(Components(rows))
    ensures forall c | c in Components(rows) :: c.path in t && c.id == IdOf(c.path, x)
  {
    hide Faithful, StagedFrom, PayloadName, PayloadNames, Bound, DistinctComponents;
    WrittenIdsDiffer(rows, t, x);
    RowComponents(rows, t, x);
    RowsCover(rows, t, x);
    var cs := Components(rows);
    forall k | k in REQUIRED
      ensures exists c :: c in cs && c.id == StaticId(k)
    {
      var i :| 0 <= i < |rows| && rows[i].component.path == StaticName(k);
      assert cs[i] in cs && cs[i].id == StaticId(k);
    }
  }

  lemma WrittenMatches(rows: seq<Staged>, t: Tree, u: Tree, x: Codec)
    requires StagedFrom(rows, t.Keys, t, x) && forall n | n in t :: n in u && u[n] == t[n]
    ensures forall c | c in Components(rows) :: Matches(u, c, x)
  {
    RowsAreFromTree(rows, t, x);
  }

  lemma RequiredAreHeld(o: Owned, x: Codec)
    requires Installed(o, x.checks)
    ensures forall k | k in REQUIRED :: StaticName(k) in Layout(Held(o, x.checks))
  {
    LayoutMembers(Held(o, x.checks));
  }

  /** The layout beside its manifest: what the verifier extracts. */
  lemma BesideManifest(o: Owned, manifest: Bytes, x: Codec)
    requires Faithful(x) && Installed(o, x.checks)
    ensures var t := Layout(Held(o, x.checks)); var u := t[ManifestName := manifest];
      && u - {ManifestName} == t && Payload(u) == Held(o, x.checks) && |u| == |t| + 1
      && SkillsIn(u) == Held(o, x.checks).skills.Keys
      && (forall k :: StaticName(k) in u <==> k in o.files)
      && (forall k | k in o.files :: u[StaticName(k)] == o.files[k])
      && forall n | n in t && n.SkillName? :: n.skill in Registry(o.files, x.checks).value
  {
    var h := Held(o, x.checks);
    var t := Layout(h);
    HeldHasNoEmptyPackage(o, x);
    LayoutMembers(h);
    hide Layout, Faithful, Registry, Payload, PayloadNames, Installed;
    PayloadBesideManifest(t, manifest);
    PayloadFiles(t[ManifestName := manifest]);
  }

  lemma PayloadBesideManifest(t: Tree, manifest: Bytes)
    requires PayloadNames(t)
    ensures var u := t[ManifestName := manifest];
      u - {ManifestName} == t && Payload(u) == Payload(t) && |u| == |t| + 1
  {
    PayloadIsNotManifest(t);
    BesideSize(t, manifest);
    hide PayloadNames, Payload;
    ManifestIsNoPayload(t[ManifestName := manifest]);
  }

  lemma BesideSize(t: Tree, manifest: Bytes)
    requires ManifestName !in t
    ensures var u := t[ManifestName := manifest]; u - {ManifestName} == t && |u| == |t| + 1
  {
    var u := t[ManifestName := manifest];
    assert u.Keys == t.Keys + {ManifestName} && |u.Keys| == |u| && |t.Keys| == |t|;
    assert u - {ManifestName} == t;
  }

  lemma WrittenSkills(o: Owned, rows: seq<Staged>, manifest: Bytes, x: Codec)
    requires Faithful(x) && Installed(o, x.checks)
    requires StagedFrom(rows, Layout(Held(o, x.checks)).Keys, Layout(Held(o, x.checks)), x)
    ensures var t := Layout(Held(o, x.checks));
      SkillsAccepted(Components(rows), t[ManifestName := manifest], x)
      <==> (ConfigSkills in o.files ==> |o.files[ConfigSkills]| <= MAX_SMALL_BYTES)
  {
    hide Layout, StagedFrom, ValidInventory, Payload, Faithful, PayloadNames, Held;
    var t, cs := Layout(Held(o, x.checks)), Components(rows);
    HeldHasNoEmptyPackage(o, x);
    RequiredAreHeld(o, x);
    WrittenInventoryIsValid(rows, t, x);
    BesideManifest(o, manifest, x);
    HeldSkills(o, x);
    assert forall c | c in cs && c.path.SkillName? :: c.path in t;
  }

  lemma HeldSkills(o: Owned, x: Codec)
    requires Installed(o, x.checks)
    ensures var h, registered := Held(o, x.checks), Registry(o.files, x.checks).value;
      && h.skills.Keys == registered.Keys && h.files == o.files
      && forall s | s in registered :: x.checks.inspect(h.skills[s]) == Some(registered[s])
  {
  }

  lemma AtLeastThree(rows: seq<Staged>, t: Tree, x: Codec)
    requires StagedFrom(rows, t.Keys, t, x) && forall k | k in REQUIRED :: StaticName(k) in t
    ensures |rows| == |t| >= 3
  {
    var three := {StaticName(Identity), StaticName(MemoryDatabase), StaticName(ConversationHistory)};
    assert three <= t.Keys && |three| == 3;
    assert t.Keys == three + (t.Keys - three);
    assert |t.Keys| == |t|;
  }

  lemma StagedManifestIsValid(m: Manifest, rows: seq<Staged>, t: Tree, x: Codec)
    requires m.components == Components(rows) && StagedFrom(rows, t.Keys, t, x)
    requires (forall n | n in t :: Fits(n, t[n], x)) && forall k | k in REQUIRED :: StaticName(k) in t
    ensures ValidManifest(m, x) <==> |rows| <= 512
  {
    AtLeastThree(rows, t, x);
    RowsAreFromTree(rows, t, x);
  }

  predicate ReaderBounds(files: map<ComponentId, Bytes>)
    requires REQUIRED <= files.Keys
  {
    && |files[Identity]| <= MAX_SMALL_BYTES && |files[ConversationHistory]| <= MAX_HISTORY_BYTES
    && (ConfigSkills in files ==> |files[ConfigSkills]| <= MAX_SMALL_BYTES)
  }

  lemma WrittenSize(m: Manifest, rows: seq<Staged>, t: Tree, x: Codec)
    requires StagedFrom(rows, t.Keys, t, x)
    ensures |Written(m, rows, x)| == |t| + 1
  {
    assert |t.Keys| == |t|;
  }

  /** The archive extracts to `u`, which is laid out as its manifest says. */
  predicate LaidOut(a: Archive, m: Manifest, u: Tree, x: Codec) {
    && Extract(a) == u && ValidInventory(m.components) && u.Keys == {ManifestName} + PathsOf(m.components) && |u| == |a|
    && forall c | c in m.components :: Matches(u, c, x)
  }

  /** `u` holds exactly these component files. */
  predicate HoldsFiles(u: Tree, files: map<ComponentId, Bytes>) {
    && Payload(u).files == files && REQUIRED <= files.Keys
    && (forall k :: StaticName(k) in u <==> k in files) && forall k | k in files :: u[StaticName(k)] == files[k]
  }

  lemma ConformsParts(a: Archive, m: Manifest, u: Tree, files: map<ComponentId, Bytes>, x: Codec)
    requires LaidOut(a, m, u, x) && HoldsFiles(u, files)
    ensures REQUIRED <= files.Keys
    ensures Conforms(a, m, x) <==>
      && x.checks.coherent(files) && SkillsAccepted(m.components, u, x)
      && |files[Identity]| <= MAX_SMALL_BYTES && |files[ConversationHistory]| <= MAX_HISTORY_BYTES
  {
    hide Extract, ValidInventory, Matches, SkillsAccepted, Payload, PathsOf;
  }

  lemma WrittenIsLaidOut(m: Manifest, rows: seq<Staged>, t: Tree, x: Codec)
    requires Faithful(x) && m.components == Components(rows) && StagedFrom(rows, t.Keys, t, x) && PayloadNames(t)
    requires forall k | k in REQUIRED :: StaticName(k) in t
    ensures LaidOut(Written(m, rows, x), m, t[ManifestName := x.encode(m)], x)
  {
    hide Faithful, StagedFrom, ValidInventory, Matches, PayloadNames, Extract, PathsOf, Written, Components, IdOf;
    var u := t[ManifestName := x.encode(m)];
    WrittenExtracts(m, rows, t, x);
    WrittenSize(m, rows, t, x);
    PayloadIsNotManifest(t);
    BesideSize(t, x.encode(m));
    WrittenInventoryIsValid(rows, t, x);
    WrittenMatches(rows, t, u, x);
    RowsCover(rows, t, x);
    assert u.Keys == {ManifestName} + t.Keys;
  }

  lemma HeldFilesBeside(o: Owned, manifest: Bytes, x: Codec)
    requires Faithful(x) && Installed(o, x.checks)
    ensures HoldsFiles(Layout(Held(o, x.checks))[ManifestName := manifest], o.files)
  {
    HeldFiles(o, x);
    hide Faithful, Layout, Held, Payload, Registry, SkillsMatch;
    BesideManifest(o, manifest, x);
  }

  lemma WrittenConformsIff(o: Owned, m: Manifest, rows: seq<Staged>, x: Codec)
    requires Faithful(x) && Installed(o, x.checks) && m.components == Components(rows)
    requires StagedFrom(rows, Layout(Held(o, x.checks)).Keys, Layout(Held(o, x.checks)), x)
    ensures Conforms(Written(m, rows, x), m, x) <==> x.checks.coherent(o.files) && ReaderBounds(o.files)
  {
    hide Faithful, Layout, Held, StagedFrom, Conforms, LaidOut;
    hide HoldsFiles, Components, Written, SkillsAccepted, Registry, SkillsMatch;
    hide PayloadNames;
    HeldHasNoEmptyPackage(o, x);
    RequiredAreHeld(o, x);
    WrittenIsLaidOut(m, rows, Layout(Held(o, x.checks)), x);
    HeldFilesBeside(o, x.encode(m), x);
    ConformsParts(Written(m, rows, x), m, Layout(Held(o, x.checks))[ManifestName := x.encode(m)], o.files, x);
    WrittenSkills(o, rows, x.encode(m), x);
  }

  /** The manifest and the archive of a backup of these contents. */
  ghost function ManifestFor(h: Contents, backupId: string, now: int, x: Codec): Manifest
    requires Faithful(x) && Holdable(h, x.checks)
  {
    Manifest(backupId, now, Components(Rows(h, x)))
  }

  ghost function ArchiveFor(h: Contents, backupId: string, now: int, x: Codec): Archive
    requires Faithful(x) && Holdable(h, x.checks)
  {
    Written(ManifestFor(h, backupId, now, x), Rows(h, x), x)
  }

  /** The bounds on an archive that are not checked while staging. */
  predicate Bounded(h: Contents, m: Manifest, x: Codec) {
    var t := Layout(h);
    && |t| <= 512 && (forall n | n in t :: x.safe(n)) && |x.encode(m)| <= MAX_SMALL_BYTES
    && REQUIRED <= h.files.Keys && ReaderBounds(h.files)
  }

  lemma HeldFiles(o: Owned, x: Codec)
    requires Installed(o, x.checks)
    ensures Held(o, x.checks).files == o.files && REQUIRED <= o.files.Keys
  {
  }

  lemma WrittenAcceptance(m: Manifest, rows: seq<Staged>, t: Tree, x: Codec)
    requires StagedFrom(rows, t.Keys, t, x) && PayloadNames(t) && x.decode(x.encode(m)) == Some(m)
    ensures var a := Written(m, rows, x);
      && (Accepted(a, x) <==> Readable(a, x) && |x.encode(m)| <= MAX_SMALL_BYTES && Conforms(a, m, x))
      && (Accepted(a, x) ==> ManifestOf(a, x) == m)
      && Extract(a) - {ManifestName} == t
  {
    WrittenExtracts(m, rows, t, x);
    PayloadIsNotManifest(t);
    hide Extract, Readable, Conforms, Written, StagedFrom, PayloadNames;
  }

  lemma WrittenReadability(o: Owned, m: Manifest, rows: seq<Staged>, x: Codec)
    requires Faithful(x) && Stageable(o, x) && |x.encode(m)| <= MAX_SMALL_BYTES && |rows| <= 512
    requires StagedFrom(rows, Layout(Held(o, x.checks)).Keys, Layout(Held(o, x.checks)), x)
    ensures Readable(Written(m, rows, x), x) <==> forall n | n in Layout(Held(o, x.checks)) :: x.safe(n)
  {
    var t := Layout(Held(o, x.checks));
    HeldHasNoEmptyPackage(o, x);
    hide Faithful, Layout, Held, StagedFrom, Readable, Fits, PayloadNames, Written, Installed;
    if forall n | n in t :: x.safe(n) {
      SafelyNamedIsReadable(m, rows, t, x);
    }
    if Readable(Written(m, rows, x), x) {
      ReadableIsSafelyNamed(m, rows, t, x);
    }
  }

  /** The archive written from a staged Home is accepted exactly when its contents agree and stay within the bounds. */
  lemma WrittenIsAcceptedIff(o: Owned, backupId: string, now: int, x: Codec)
    requires Faithful(x) && Stageable(o, x) && ValidManifest(ManifestFor(Held(o, x.checks), backupId, now, x), x)
    ensures var h := Held(o, x.checks);
      var m, a := ManifestFor(h, backupId, now, x), ArchiveFor(h, backupId, now, x);
      && (Accepted(a, x) <==> x.checks.coherent(o.files) && Bounded(h, m, x))
      && Extract(a) - {ManifestName} == Layout(h)
      && (Accepted(a, x) ==> ManifestOf(a, x) == m)
  {
    var h := Held(o, x.checks);
    var m, rows, t := ManifestFor(h, backupId, now, x), Rows(h, x), Layout(h);
    assert x.decode(x.encode(m)) == Some(m);
    assert |rows| <= 512;
    hide Faithful, Layout, Held, StagedFrom, Readable, Conforms;
    hide ValidManifest, PayloadNames, Extract, Written, Installed;
    hide Rows, ReaderBounds, Accepted, Fits;
    RowsAreStaged(o, x);
    HeldHasNoEmptyPackage(o, x);
    RequiredAreHeld(o, x);
    AtLeastThree(rows, t, x);
    WrittenAcceptance(m, rows, t, x);
    WrittenConformsIff(o, m, rows, x);
    HeldFiles(o, x);
    if |x.encode(m)| <= MAX_SMALL_BYTES {
      WrittenReadability(o, m, rows, x);
    }
  }

  // ---------------------------------------------------------------- materializing

  /** Copies every listed component of an accepted archive, and refuses any other archive. */
  method MaterializeArchive(a: Archive, x: Codec) returns (t: Option<Tree>)
    ensures t.Some? <==> Accepted(a, x)
    ensures t.Some? ==> t.value == Materialized(a, x) && Verified(Payload(t.value), x.checks)
  {
    hide Accepted, Payload, Verified, Extract, Bound, Matches;
    var m := VerifyTar(a, x);
    if m.None? {
      return None;
    }
    AcceptedIsComplete(a, x);
    AcceptedIsVerified(a, x);
    var all, out, cs := Extract(a), map[], m.value.components;
    for i := 0 to |cs|
      invariant out.Keys == set k | 0 <= k < i :: cs[k].path
      invariant forall n | n in out :: n in Materialized(a, x) && out[n] == Materialized(a, x)[n]
    {
      assert cs[i] in cs && cs[i].path in Materialized(a, x);
      out := out[cs[i].path := all[cs[i].path]];
    }
    assert out.Keys == PathsOf(cs);
    assert out == Materialized(a, x);
    t := Some(out);
  }
}
