/** Staging a Home: which files a backup takes, in which order, and when it refuses. */
module BackupStaging {
  import opened Common
  import opened Inventory
  import opened BackupArchive

  datatype Staged = Staged(component: Component, content: Bytes)

  function IdOf(n: Name, x: Codec): Id {
    match n
    case StaticName(k) => StaticId(k)
    case SkillName(s, f) => SkillId(s, x.pathDigest(f))
    case _ => OtherId("")
  }

  function RowFor(n: Name, content: Bytes, x: Codec): Staged {
    Staged(Component(IdOf(n, x), n, n.StaticName? && n.component in REQUIRED, |content|, x.sha(content)), content)
  }

  predicate Fits(n: Name, content: Bytes, x: Codec) {
    x.portable(n) && |content| <= MAX_COMPONENT_BYTES
  }

  /** What staging itself checks; that the contents agree is left to the verifier. */
  predicate Stageable(o: Owned, x: Codec) {
    Installed(o, x.checks) && var t := Layout(Held(o, x.checks)); forall n | n in t :: Fits(n, t[n], x)
  }

  // ---------------------------------------------------------------- the staged rows

  /** The rows of the table's first `i` components that exist. */
  function StaticRows(files: map<ComponentId, Bytes>, i: nat, x: Codec): seq<Staged>
    requires i <= |V1_STATIC_INVENTORY|
  {
    if i == 0 then []
    else
      var c := V1_STATIC_INVENTORY[i - 1];
      StaticRows(files, i - 1, x) + if c in files then [RowFor(StaticName(c), files[c], x)] else []
  }

  function FileRows(s: Inventory.SkillId, p: Package, files: seq<string>, x: Codec): seq<Staged>
    requires forall f | f in files :: f in p
  {
    seq(|files|, i requires 0 <= i < |files| => RowFor(SkillName(s, files[i]), p[files[i]], x))
  }

  /** The rows of the packages, one after another, each in the order of its directory walk. */
  ghost function PackageRows(skills: SkillTree, ids: seq<Inventory.SkillId>, x: Codec): seq<Staged>
    requires Faithful(x) && forall s | s in ids :: s in skills
  {
    if ids == [] then []
    else
      var s := ids[|ids| - 1];
      WalkIsInside(skills[s], x);
      PackageRows(skills, ids[..|ids| - 1], x) + FileRows(s, skills[s], x.walk(skills[s]), x)
  }

  lemma WalkIsInside(p: Package, x: Codec)
    requires Faithful(x)
    ensures Lists(x.walk(p), p.Keys) && forall f | f in x.walk(p) :: f in p
  {
    assert forall f :: f in x.walk(p) <==> f in SetOf(x.walk(p));
  }

  /** The order in which the registry lists the installed skills. */
  function Order(files: map<ComponentId, Bytes>, x: Codec): seq<Inventory.SkillId> {
    if ConfigSkills in files then x.listed(files[ConfigSkills]) else []
  }

  lemma OrderIsTheRegistry(files: map<ComponentId, Bytes>, x: Codec)
    requires Faithful(x) && Registry(files, x.checks).Some?
    ensures Lists(Order(files, x), Registry(files, x.checks).value.Keys)
    ensures forall s :: s in Order(files, x) <==> s in Registry(files, x.checks).value
  {
    assert forall s :: s in Order(files, x) <==> s in SetOf(Order(files, x));
  }

  /** Contents that a Home can hold: the packages are those of the registry. */
  predicate Holdable(h: Contents, k: Checks) {
    Registry(h.files, k).Some? && h.skills.Keys == Registry(h.files, k).value.Keys
  }

  /** All the rows of a backup of these contents, in the order in which they are staged. */
  ghost function Rows(h: Contents, x: Codec): seq<Staged>
    requires Faithful(x) && Holdable(h, x.checks)
  {
    OrderIsTheRegistry(h.files, x);
    StaticRows(h.files, |V1_STATIC_INVENTORY|, x) + PackageRows(h.skills, Order(h.files, x), x)
  }

  /** One row for each name of `done`, with the content that `t` has there. */
  predicate StagedFrom(rows: seq<Staged>, done: set<Name>, t: Tree, x: Codec) {
    && done <= t.Keys && |rows| == |done|
    && (forall i, j | 0 <= i < j < |rows| :: rows[i].component.path != rows[j].component.path)
    && forall r | r in rows :: r.component.path in done && r == RowFor(r.component.path, t[r.component.path], x)
  }

  lemma OneMoreRow(rows: seq<Staged>, done: set<Name>, n: Name, t: Tree, x: Codec)
    requires StagedFrom(rows, done, t, x) && n in t && n !in done
    ensures StagedFrom(rows + [RowFor(n, t[n], x)], done + {n}, t, x)
  {
    forall i | 0 <= i < |rows|
      ensures rows[i].component.path != n
    {
      assert rows[i] in rows;
    }
  }

  function StaticsBefore(files: map<ComponentId, Bytes>, i: nat): set<Name> {
    set k | k in files && Position(k) < i :: StaticName(k)
  }

  lemma NextStatic(files: map<ComponentId, Bytes>, i: nat)
    requires i < 21
    ensures |V1_STATIC_INVENTORY| == 21
    ensures V1_STATIC_INVENTORY[i] in files ==>
      StaticsBefore(files, i + 1) == StaticsBefore(files, i) + {StaticName(V1_STATIC_INVENTORY[i])}
    ensures V1_STATIC_INVENTORY[i] !in files ==> StaticsBefore(files, i + 1) == StaticsBefore(files, i)
    ensures StaticName(V1_STATIC_INVENTORY[i]) !in StaticsBefore(files, i)
  {
    var c := V1_STATIC_INVENTORY[i];
    InventoryListsEachOnce(c);
    hide Position;
    forall k: ComponentId | Position(k) == i
      ensures k == c
    {
      InventoryListsEachOnce(k);
    }
  }

  lemma {:induction false} StaticRowsAreStaged(files: map<ComponentId, Bytes>, i: nat, t: Tree, x: Codec)
    requires i <= 21 == |V1_STATIC_INVENTORY|
    requires forall k | k in files :: StaticName(k) in t && t[StaticName(k)] == files[k]
    ensures StagedFrom(StaticRows(files, i, x), StaticsBefore(files, i), t, x)
  {
    hide StagedFrom, RowFor, StaticsBefore, Position;
    if i == 0 {
      NothingStaged(files, t, x);
    } else {
      StaticRowsAreStaged(files, i - 1, t, x);
      NextStatic(files, i - 1);
      var c := V1_STATIC_INVENTORY[i - 1];
      if c in files {
        OneMoreRow(StaticRows(files, i - 1, x), StaticsBefore(files, i - 1), StaticName(c), t, x);
      } else {
        assert StaticRows(files, i, x) == StaticRows(files, i - 1, x);
      }
    }
  }

  lemma NothingStaged(files: map<ComponentId, Bytes>, t: Tree, x: Codec)
    ensures StagedFrom([], StaticsBefore(files, 0), t, x)
  {
    assert StaticsBefore(files, 0) == {};
  }

  function PackageNames(s: Inventory.SkillId, files: set<string>): set<Name> {
    set f | f in files :: SkillName(s, f)
  }

  lemma NextFile(done: set<Name>, s: Inventory.SkillId, files: seq<string>)
    requires files != [] && Lists(files, SetOf(files)) && forall f :: SkillName(s, f) !in done
    ensures var front, last := files[..|files| - 1], files[|files| - 1];
      && Lists(front, SetOf(front)) && SkillName(s, last) !in done + PackageNames(s, SetOf(front))
      && done + PackageNames(s, SetOf(files)) == done + PackageNames(s, SetOf(front)) + {SkillName(s, last)}
  {
    var front, last := files[..|files| - 1], files[|files| - 1];
    assert files == front + [last];
    assert SetOf(files) == SetOf(front) + {last};
    assert forall i | 0 <= i < |front| :: front[i] == files[i] && files[i] != last;
  }

  lemma LastFileRow(s: Inventory.SkillId, p: Package, files: seq<string>, x: Codec)
    requires files != [] && forall f | f in files :: f in p
    ensures var front, last := files[..|files| - 1], files[|files| - 1];
      FileRows(s, p, files, x) == FileRows(s, p, front, x) + [RowFor(SkillName(s, last), p[last], x)]
  {
  }

  lemma {:induction false} FileRowsAreStaged(
    rows: seq<Staged>, done: set<Name>, s: Inventory.SkillId, p: Package, files: seq<string>, t: Tree, x: Codec)
    requires StagedFrom(rows, done, t, x) && Lists(files, SetOf(files)) && forall f :: SkillName(s, f) !in done
    requires forall f | f in files :: f in p && SkillName(s, f) in t && t[SkillName(s, f)] == p[f]
    ensures StagedFrom(rows + FileRows(s, p, files, x), done + PackageNames(s, SetOf(files)), t, x)
    decreases |files|
  {
    hide StagedFrom, RowFor, Lists;
    if files == [] {
      assert rows + FileRows(s, p, [], x) == rows && done + PackageNames(s, SetOf([])) == done;
    } else {
      hide PackageNames, SetOf, FileRows;
      var front, last := files[..|files| - 1], files[|files| - 1];
      NextFile(done, s, files);
      LastFileRow(s, p, files, x);
      FileRowsAreStaged(rows, done, s, p, front, t, x);
      var before := rows + FileRows(s, p, front, x);
      OneMoreRow(before, done + PackageNames(s, SetOf(front)), SkillName(s, last), t, x);
      assert rows + FileRows(s, p, files, x) == before + [RowFor(SkillName(s, last), p[last], x)];
    }
  }

  /** The names of the files of these packages. */
  function FilesOf(skills: SkillTree, chosen: set<Inventory.SkillId>): set<Name> {
    set s, f | s in chosen && s in skills && f in skills[s] :: SkillName(s, f)
  }

  lemma NextPackage(done: set<Name>, skills: SkillTree, ids: seq<Inventory.SkillId>)
    requires ids != [] && Lists(ids, SetOf(ids)) && (forall s | s in ids :: s in skills)
    requires forall n | n in done :: n.StaticName?
    ensures var front, s := ids[..|ids| - 1], ids[|ids| - 1];
      && Lists(front, SetOf(front)) && (forall f :: SkillName(s, f) !in done + FilesOf(skills, SetOf(front)))
      && done + FilesOf(skills, SetOf(ids)) == done + FilesOf(skills, SetOf(front)) + PackageNames(s, skills[s].Keys)
  {
    var front, s := ids[..|ids| - 1], ids[|ids| - 1];
    assert ids == front + [s];
    assert SetOf(ids) == SetOf(front) + {s};
    assert forall i | 0 <= i < |front| :: front[i] == ids[i] && ids[i] != s;
    assert FilesOf(skills, SetOf(ids)) == FilesOf(skills, SetOf(front)) + PackageNames(s, skills[s].Keys);
  }

  lemma {:induction false} PackageRowsAreStaged(
    rows: seq<Staged>, done: set<Name>, skills: SkillTree, ids: seq<Inventory.SkillId>, t: Tree, x: Codec)
    requires Faithful(x) && StagedFrom(rows, done, t, x) && Lists(ids, SetOf(ids))
    requires forall n | n in done :: n.StaticName?
    requires forall s | s in ids :: s in skills
    requires forall s, f | s in skills && f in skills[s] :: SkillName(s, f) in t && t[SkillName(s, f)] == skills[s][f]
    ensures StagedFrom(rows + PackageRows(skills, ids, x), done + FilesOf(skills, SetOf(ids)), t, x)
    decreases |ids|
  {
    hide StagedFrom, RowFor, Lists, Faithful, FileRows;
    if ids == [] {
      assert rows + [] == rows && done + FilesOf(skills, SetOf([])) == done;
    } else {
      hide PackageNames, FilesOf, SetOf;
      var front, s := ids[..|ids| - 1], ids[|ids| - 1];
      NextPackage(done, skills, ids);
      PackageRowsAreStaged(rows, done, skills, front, t, x);
      WalkIsInside(skills[s], x);
      WalkCoversKeys(skills[s], x);
      var before := rows + PackageRows(skills, front, x);
      FileRowsAreStaged(before, done + FilesOf(skills, SetOf(front)), s, skills[s], x.walk(skills[s]), t, x);
      assert rows + PackageRows(skills, ids, x) == before + FileRows(s, skills[s], x.walk(skills[s]), x);
    }
  }

  lemma WalkCoversKeys(p: Package, x: Codec)
    requires Faithful(x)
    ensures SetOf(x.walk(p)) == p.Keys && Lists(x.walk(p), SetOf(x.walk(p)))
  {
  }

  /** The staged rows are the files that the backup holds, each once. */
  lemma RowsAreStaged(o: Owned, x: Codec)
    requires Faithful(x) && Installed(o, x.checks)
    ensures StagedFrom(Rows(Held(o, x.checks), x), Layout(Held(o, x.checks)).Keys, Layout(Held(o, x.checks)), x)
  {
    var h, ids := Held(o, x.checks), Order(o.files, x);
    var t := Layout(h);
    LayoutMembers(h);
    OrderIsTheRegistry(o.files, x);
    AllPositions();
    assert StaticsBefore(o.files, 21) + FilesOf(h.skills, SetOf(ids)) == t.Keys;
    InventoryListsEachOnce(Identity);
    hide Layout, StagedFrom, Faithful, Held, Registry, SkillsMatch, FilesOf, Position;
    StaticRowsAreStaged(o.files, 21, t, x);
    PackageRowsAreStaged(StaticRows(o.files, 21, x), StaticsBefore(o.files, 21), h.skills, ids, t, x);
  }

  lemma AllPositions()
    ensures forall k :: Position(k) < 21
  {
  }

  // ---------------------------------------------------------------- staging

  method StageFile(n: Name, content: Bytes, x: Codec) returns (row: Option<Staged>)
    ensures row == if Fits(n, content, x) then Some(RowFor(n, content, x)) else None
  {
    row := if Fits(n, content, x) then Some(RowFor(n, content, x)) else None;
  }

  /** The static components in the table's order: required ones must be there, optional ones may be. */
  method StageStatics(files: map<ComponentId, Bytes>, x: Codec) returns (rows: Option<seq<Staged>>)
    ensures rows.Some? <==>
      REQUIRED <= files.Keys && forall k | k in files :: Fits(StaticName(k), files[k], x)
    ensures rows.Some? ==> rows.value == StaticRows(files, |V1_STATIC_INVENTORY|, x)
  {
    hide Position, Fits, RowFor;
    InventoryListsEachOnce(Identity);
    var done := [];
    for i := 0 to |V1_STATIC_INVENTORY|
      invariant done == StaticRows(files, i, x)
      invariant forall k | Position(k) < i :: k in REQUIRED ==> k in files
      invariant forall k | Position(k) < i && k in files :: Fits(StaticName(k), files[k], x)
    {
      var c := V1_STATIC_INVENTORY[i];
      InventoryListsEachOnce(c);
      PositionIs(c, i);
      if c in files {
        var row := StageFile(StaticName(c), files[c], x);
        if row.None? {
          return None;
        }
        done := done + [row.value];
      } else if c in REQUIRED {
        return None;
      }
    }
    AllPositions();
    rows := Some(done);
  }

  lemma PositionIs(c: ComponentId, i: nat)
    requires i < 21 == |V1_STATIC_INVENTORY| && c == V1_STATIC_INVENTORY[i]
    ensures forall k :: Position(k) < i + 1 <==> Position(k) < i || k == c
  {
    forall k: ComponentId
      ensures Position(k) < i + 1 <==> Position(k) < i || k == c
    {
      InventoryListsEachOnce(k);
      InventoryListsEachOnce(c);
    }
  }

  method StagePackage(s: Inventory.SkillId, p: Package, x: Codec) returns (rows: Option<seq<Staged>>)
    requires Faithful(x)
    ensures (forall f | f in x.walk(p) :: f in p)
    ensures rows.Some? <==> forall f | f in p :: Fits(SkillName(s, f), p[f], x)
    ensures rows.Some? ==> rows.value == FileRows(s, p, x.walk(p), x)
  {
    WalkIsInside(p, x);
    WalkCoversKeys(p, x);
    hide Fits, RowFor, Faithful, Lists;
    var files, all := x.walk(p), [];
    for i := 0 to |files|
      invariant all == FileRows(s, p, files[..i], x)
      invariant forall f | f in files[..i] :: Fits(SkillName(s, f), p[f], x)
    {
      assert files[i] in files && files[..i + 1][..i] == files[..i];
      LastFileRow(s, p, files[..i + 1], x);
      var row := StageFile(SkillName(s, files[i]), p[files[i]], x);
      if row.None? {
        return None;
      }
      all := all + [row.value];
    }
    assert files[..|files|] == files;
    assert forall f | f in p :: f in SetOf(files);
    rows := Some(all);
  }

  predicate PackageFits(skills: SkillTree, s: Inventory.SkillId, registered: map<Inventory.SkillId, Digest>, x: Codec) {
    && s in registered && s in skills && x.checks.inspect(skills[s]) == Some(registered[s])
    && forall f | f in skills[s] :: Fits(SkillName(s, f), skills[s][f], x)
  }

  /** The registered packages in the order of the registry, each as registered. */
  method StageInstalledSkills(
    skills: SkillTree, registered: map<Inventory.SkillId, Digest>, ids: seq<Inventory.SkillId>, x: Codec)
    returns (rows: Option<seq<Staged>>)
    requires Faithful(x) && forall s | s in ids :: s in registered
    ensures rows.Some? <==> forall s | s in ids :: PackageFits(skills, s, registered, x)
    ensures rows.Some? ==> (forall s | s in ids :: s in skills) && rows.value == PackageRows(skills, ids, x)
  {
    hide Fits, Faithful, FileRows;
    var all := [];
    for i := 0 to |ids|
      invariant forall s | s in ids[..i] :: PackageFits(skills, s, registered, x)
      invariant all == PackageRows(skills, ids[..i], x)
    {
      var s := ids[i];
      assert s in ids && ids[..i + 1][..i] == ids[..i];
      if s !in skills {
        return None;
      }
      var staged := StagePackage(s, skills[s], x);
      if staged.None? || x.checks.inspect(skills[s]) != Some(registered[s]) {
        return None;
      }
      all := all + staged.value;
    }
    assert ids[..|ids|] == ids;
    rows := Some(all);
  }

  lemma StageableParts(o: Owned, x: Codec)
    requires Installed(o, x.checks)
    ensures Stageable(o, x) <==>
      && (forall k | k in o.files :: Fits(StaticName(k), o.files[k], x))
      && forall s | s in Registry(o.files, x.checks).value ::
           PackageFits(o.skills.GetOr(map[]), s, Registry(o.files, x.checks).value, x)
  {
    hide Fits, Layout;
    var h := Held(o, x.checks);
    LayoutMembers(h);
    var registered := Registry(o.files, x.checks).value;
    var t := Layout(h);
    if Stageable(o, x) {
      forall k | k in o.files
        ensures Fits(StaticName(k), o.files[k], x)
      {
        assert StaticName(k) in t;
      }
      forall s | s in registered
        ensures PackageFits(o.skills.GetOr(map[]), s, registered, x)
      {
        forall f | f in o.skills.value[s]
          ensures Fits(SkillName(s, f), o.skills.value[s][f], x)
        {
          assert h.skills[s] == o.skills.value[s] && SkillName(s, f) in t;
        }
      }
    }
  }

  lemma InstalledParts(o: Owned, x: Codec)
    requires REQUIRED <= o.files.Keys && Registry(o.files, x.checks).Some?
    requires forall s | s in Registry(o.files, x.checks).value ::
      PackageFits(o.skills.GetOr(map[]), s, Registry(o.files, x.checks).value, x)
    ensures Installed(o, x.checks)
  {
  }

  lemma {:induction false} SamePackages(a: SkillTree, b: SkillTree, ids: seq<Inventory.SkillId>, x: Codec)
    requires Faithful(x) && forall s | s in ids :: s in a && s in b && a[s] == b[s]
    ensures PackageRows(a, ids, x) == PackageRows(b, ids, x)
  {
    hide Faithful;
    if ids != [] {
      SamePackages(a, b, ids[..|ids| - 1], x);
    }
  }

  /** Stages exactly the component files and the files of the registered packages, or fails. */
  method Stage(o: Owned, x: Codec) returns (rows: Option<seq<Staged>>)
    requires Faithful(x)
    ensures rows.Some? <==> Stageable(o, x)
    ensures rows.Some? ==> rows.value == Rows(Held(o, x.checks), x)
  {
    hide Fits, Layout, PackageFits, SkillsMatch, Faithful, StaticRows, PackageRows, FileRows;
    var statics := StageStatics(o.files, x);
    var registry := Registry(o.files, x.checks);
    if Installed(o, x.checks) {
      StageableParts(o, x);
    }
    if statics.None? || registry.None? {
      return None;
    }
    OrderIsTheRegistry(o.files, x);
    var skills, ids := o.skills.GetOr(map[]), Order(o.files, x);
    var packages := StageInstalledSkills(skills, registry.value, ids, x);
    if packages.None? {
      return None;
    }
    InstalledParts(o, x);
    StageableParts(o, x);
    SamePackages(skills, Held(o, x.checks).skills, ids, x);
    rows := Some(statics.value + packages.value);
  }
}
