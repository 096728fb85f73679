/** The verifier of a decrypted backup archive, and what acceptance means. */
module BackupVerifier {
  import opened Common
  import opened Inventory
  import opened BackupArchive

  /** The bounded read of the members: at least one, few enough, named once and safely, none too large. */
  predicate Readable(a: Archive, x: Codec) {
    && 1 <= |a| <= MAX_MEMBERS && DistinctNames(a)
    && forall m | m in a :: x.safe(m.name) && |m.content| <= MAX_COMPONENT_BYTES
  }

  predicate DistinctComponents(cs: seq<Component>) {
    forall i, j | 0 <= i < j < |cs| :: cs[i].id != cs[j].id && cs[i].path != cs[j].path
  }

  /** A component is bound to its place in the layout: the exact static path, or a path under the skills folder. */
  predicate Bound(c: Component) {
    match c.id
    case StaticId(k) => c.path == StaticName(k) && c.required == (k in REQUIRED)
    case SkillId(_, _) => !c.required && c.path.SkillName?
    case OtherId(_) => false
  }

  predicate ListsRequired(cs: seq<Component>) {
    forall k | k in REQUIRED :: exists c :: c in cs && c.id == StaticId(k)
  }

  predicate ValidInventory(cs: seq<Component>) {
    && DistinctComponents(cs)
    && ListsRequired(cs) && forall c | c in cs :: Bound(c)
  }

  /** Size and digest of the file under the component's path. */
  predicate Matches(t: Tree, c: Component, x: Codec) {
    c.path in t && |t[c.path]| == c.size && x.sha(t[c.path]) == c.sha
  }

  predicate SkillComponent(c: Component, registered: map<Inventory.SkillId, Digest>, x: Codec) {
    c.path.SkillName? ==> c.path.skill in registered && c.id == SkillId(c.path.skill, x.pathDigest(c.path.file))
  }

  /** The archived packages are exactly the registered ones, file by file and digest by digest. */
  predicate SkillsAccepted(cs: seq<Component>, t: Tree, x: Codec) {
    if StaticName(ConfigSkills) !in t then forall c | c in cs :: !c.path.SkillName?
    else
      var registry := t[StaticName(ConfigSkills)];
      && |registry| <= MAX_SMALL_BYTES && x.checks.registry(registry).Some?
      && var registered := x.checks.registry(registry).value;
         && (forall c | c in cs :: SkillComponent(c, registered, x))
         && SkillsIn(t) == registered.Keys
         && forall s | s in registered :: x.checks.inspect(Payload(t).skills[s]) == Some(registered[s])
  }

  predicate WithinReaders(t: Tree) {
    && StaticName(Identity) in t && |t[StaticName(Identity)]| <= MAX_SMALL_BYTES
    && StaticName(ConversationHistory) in t && |t[StaticName(ConversationHistory)]| <= MAX_HISTORY_BYTES
  }

  /** What the verifier demands once the manifest is read. */
  predicate Conforms(a: Archive, m: Manifest, x: Codec) {
    var t := Extract(a);
    && ValidInventory(m.components)
    && t.Keys == {ManifestName} + PathsOf(m.components) && |t| == |a|
    && (forall c | c in m.components :: Matches(t, c, x))
    && WithinReaders(t) && x.checks.coherent(Payload(t).files)
    && SkillsAccepted(m.components, t, x)
  }

  predicate Accepted(a: Archive, x: Codec) {
    && Readable(a, x)
    && ManifestName in Extract(a) && |Extract(a)[ManifestName]| <= MAX_SMALL_BYTES
    && x.decode(Extract(a)[ManifestName]).Some?
    && Conforms(a, x.decode(Extract(a)[ManifestName]).value, x)
  }

  function ManifestOf(a: Archive, x: Codec): Manifest
    requires Accepted(a, x)
  {
    x.decode(Extract(a)[ManifestName]).value
  }

  // ---------------------------------------------------------------- the verifier, step by step

  method ReadMembersBounded(a: Archive, x: Codec) returns (ok: bool)
    ensures ok <==> Readable(a, x)
  {
    var seen: set<Name> := {};
    var i := 0;
    while i < |a|
      invariant 0 <= i <= |a| && i <= MAX_MEMBERS
      invariant forall k | 0 <= k < i :: x.safe(a[k].name) && |a[k].content| <= MAX_COMPONENT_BYTES
      invariant forall j, k | 0 <= j < k < i :: a[j].name != a[k].name
      invariant seen == set k | 0 <= k < i :: a[k].name
    {
      var m := a[i];
      assert m in a;
      if i >= MAX_MEMBERS || m.name in seen || !x.safe(m.name) || |m.content| > MAX_COMPONENT_BYTES {
        return false;
      }
      seen := seen + {m.name};
      i := i + 1;
    }
    ok := |a| > 0;
  }

  method ValidateManifestInventory(cs: seq<Component>) returns (ok: bool)
    ensures ok <==> ValidInventory(cs)
  {
    var ids: set<Id> := {};
    var paths: set<Name> := {};
    var i := 0;
    while i < |cs|
      invariant 0 <= i <= |cs|
      invariant ids == set k | 0 <= k < i :: cs[k].id
      invariant paths == set k | 0 <= k < i :: cs[k].path
      invariant forall j, k | 0 <= j < k < i :: cs[j].id != cs[k].id && cs[j].path != cs[k].path
    {
      if cs[i].id in ids || cs[i].path in paths {
        return false;
      }
      ids, paths := ids + {cs[i].id}, paths + {cs[i].path};
      i := i + 1;
    }
    assert forall c | c in cs :: c.id in ids;
    if !(StaticId(Identity) in ids && StaticId(MemoryDatabase) in ids && StaticId(ConversationHistory) in ids) {
      assert forall k | k in REQUIRED :: StaticId(k) in ids <==> exists c :: c in cs && c.id == StaticId(k);
      assert exists k | k in REQUIRED :: StaticId(k) !in ids;
      return false;
    }
    i := 0;
    while i < |cs|
      invariant 0 <= i <= |cs|
      invariant forall k | 0 <= k < i :: Bound(cs[k])
    {
      assert cs[i] in cs;
      if !Bound(cs[i]) {
        return false;
      }
      i := i + 1;
    }
    ok := true;
  }

  method VerifyComponents(cs: seq<Component>, t: Tree, x: Codec) returns (ok: bool)
    ensures ok <==> forall c | c in cs :: Matches(t, c, x)
  {
    for i := 0 to |cs|
      invariant forall k | 0 <= k < i :: Matches(t, cs[k], x)
    {
      assert cs[i] in cs;
      if !Matches(t, cs[i], x) {
        return false;
      }
    }
    ok := true;
  }

  /** Every skill file belongs to a registered package and carries its own id; the packages seen are returned. */
  method CheckSkillFiles(cs: seq<Component>, registered: map<Inventory.SkillId, Digest>, x: Codec)
    returns (ok: bool, observed: set<Inventory.SkillId>)
    ensures ok <==> forall c | c in cs :: SkillComponent(c, registered, x)
    ensures ok ==> observed == set c | c in cs && c.path.SkillName? :: c.path.skill
  {
    observed := {};
    var i := 0;
    while i < |cs|
      invariant 0 <= i <= |cs|
      invariant forall k | 0 <= k < i :: SkillComponent(cs[k], registered, x)
      invariant observed == set k | 0 <= k < i && cs[k].path.SkillName? :: cs[k].path.skill
    {
      assert cs[i] in cs;
      if !SkillComponent(cs[i], registered, x) {
        return false, observed;
      }
      if cs[i].path.SkillName? {
        observed := observed + {cs[i].path.skill};
      }
      i := i + 1;
    }
    assert forall c | c in cs && c.path.SkillName? :: c.path.skill in observed;
    ok := true;
  }

  method InspectPackages(registered: map<Inventory.SkillId, Digest>, t: Tree, x: Codec) returns (ok: bool)
    requires SkillsIn(t) == registered.Keys
    ensures ok <==> forall s | s in registered :: x.checks.inspect(Payload(t).skills[s]) == Some(registered[s])
  {
    var left := registered.Keys;
    while left != {}
      invariant left <= registered.Keys
      invariant forall s | s in registered && s !in left ::
        x.checks.inspect(Payload(t).skills[s]) == Some(registered[s])
      decreases left
    {
      var s :| s in left;
      if x.checks.inspect(Payload(t).skills[s]) != Some(registered[s]) {
        return false;
      }
      left := left - {s};
    }
    ok := true;
  }

  lemma SkillsOfPaths(cs: seq<Component>, t: Tree)
    requires t.Keys == {ManifestName} + PathsOf(cs)
    ensures SkillsIn(t) == set c | c in cs && c.path.SkillName? :: c.path.skill
    ensures forall n | n in t :: n == ManifestName || exists c :: c in cs && c.path == n
  {
    forall c | c in cs && c.path.SkillName?
      ensures c.path.skill in SkillsIn(t)
    {
      assert c.path in t;
    }
  }

  method VerifyArchivedSkills(cs: seq<Component>, t: Tree, x: Codec) returns (ok: bool)
    requires t.Keys == {ManifestName} + PathsOf(cs)
    ensures ok <==> SkillsAccepted(cs, t, x)
  {
    SkillsOfPaths(cs, t);
    if StaticName(ConfigSkills) !in t {
      for i := 0 to |cs|
        invariant forall k | 0 <= k < i :: !cs[k].path.SkillName?
      {
        assert cs[i] in cs;
        if cs[i].path.SkillName? {
          return false;
        }
      }
      return true;
    }
    var registry := t[StaticName(ConfigSkills)];
    if |registry| > MAX_SMALL_BYTES || x.checks.registry(registry).None? {
      return false;
    }
    var registered := x.checks.registry(registry).value;
    var observed;
    ok, observed := CheckSkillFiles(cs, registered, x);
    if !ok || observed != registered.Keys {
      return false;
    }
    ok := InspectPackages(registered, t, x);
  }

  method VerifyTar(a: Archive, x: Codec) returns (m: Option<Manifest>)
    ensures m.Some? <==> Accepted(a, x)
    ensures m.Some? ==> m.value == ManifestOf(a, x)
  {
    hide Readable, ValidInventory, SkillsAccepted, Matches, Payload;
    var ok := ReadMembersBounded(a, x);
    var t := Extract(a);
    if !ok || ManifestName !in t || |t[ManifestName]| > MAX_SMALL_BYTES {
      return None;
    }
    m := x.decode(t[ManifestName]);
    if m.None? {
      return None;
    }
    var cs := m.value.components;
    ok := ValidateManifestInventory(cs);
    if !ok || t.Keys != {ManifestName} + PathsOf(cs) || |t| != |a| {
      return None;
    }
    ok := VerifyComponents(cs, t, x);
    if !ok || !WithinReaders(t) || !x.checks.coherent(Payload(t).files) {
      return None;
    }
    ok := VerifyArchivedSkills(cs, t, x);
    if !ok {
      return None;
    }
  }

  // ---------------------------------------------------------------- what acceptance means

  /** What is materialized: the files under the manifest's paths. */
  function Materialized(a: Archive, x: Codec): Tree
    requires Accepted(a, x)
  {
    Extract(a) - {ManifestName}
  }

  lemma StaticComponents(a: Archive, m: Manifest, x: Codec)
    requires Conforms(a, m, x)
    ensures forall k :: StaticName(k) in Extract(a) <==> exists c :: c in m.components && c.id == StaticId(k)
    ensures forall k | k in REQUIRED :: StaticName(k) in Extract(a)
  {
    var t, cs := Extract(a), m.components;
    forall k
      ensures StaticName(k) in t <==> exists c :: c in cs && c.id == StaticId(k)
    {
      if StaticName(k) in t {
        SkillsOfPaths(cs, t);
        var c :| c in cs && c.path == StaticName(k);
        assert Bound(c);
      }
      if c :| c in cs && c.id == StaticId(k) {
        assert Bound(c) && c.path in PathsOf(cs);
      }
    }
  }

  /**
    * An accepted archive is one member per component and the manifest, bound to the layout, each matching its digest.
    */
  lemma AcceptedIsComplete(a: Archive, x: Codec)
    requires Accepted(a, x)
    ensures var cs, t := ManifestOf(a, x).components, Materialized(a, x);
      && |a| == |cs| + 1 && t.Keys == PathsOf(cs)
      && (forall c | c in cs :: Bound(c) && |t[c.path]| == c.size && x.sha(t[c.path]) == c.sha)
      && (forall n | n in t :: exists c :: c in cs && c.path == n)
      && (forall k | k in REQUIRED :: StaticName(k) in t)
      && (forall n | n in t :: n.StaticName? || n.SkillName?)
  {
    hide Readable, SkillsAccepted, Matches, Payload;
    var m, t := ManifestOf(a, x), Materialized(a, x);
    var cs := m.components;
    StaticComponents(a, m, x);
    NoManifestAmongPaths(cs);
    assert t.Keys == PathsOf(cs);
    PathsAreDistinct(cs);
    assert |Extract(a).Keys| == |PathsOf(cs)| + 1;
    assert |Extract(a).Keys| == |Extract(a)|;
    forall c | c in cs
      ensures |t[c.path]| == c.size && x.sha(t[c.path]) == c.sha
    {
      MatchesMeans(Extract(a), c, x);
      assert c.path in t;
    }
  }

  lemma MatchesMeans(t: Tree, c: Component, x: Codec)
    requires Matches(t, c, x)
    ensures c.path in t && |t[c.path]| == c.size && x.sha(t[c.path]) == c.sha
  {
  }

  lemma NoManifestAmongPaths(cs: seq<Component>)
    requires forall c | c in cs :: Bound(c)
    ensures forall n | n in PathsOf(cs) :: n.StaticName? || n.SkillName?
  {
  }

  lemma {:induction false} PathsAreDistinct(cs: seq<Component>)
    requires forall i, j | 0 <= i < j < |cs| :: cs[i].path != cs[j].path
    ensures |PathsOf(cs)| == |cs|
  {
    if cs != [] {
      var front, last := cs[..|cs| - 1], cs[|cs| - 1];
      assert cs == front + [last];
      PathsAreDistinct(front);
      assert forall i | 0 <= i < |front| :: front[i] == cs[i] && cs[i].path != last.path;
      assert PathsOf(cs) == PathsOf(front) + {last.path};
    }
  }

  lemma ManifestIsNoPayload(t: Tree)
    ensures Payload(t - {ManifestName}) == Payload(t)
  {
    var u := t - {ManifestName};
    assert StaticsIn(u) == StaticsIn(t) && SkillsIn(u) == SkillsIn(t);
    assert forall s :: FilesIn(u, s) == FilesIn(t, s);
    assert Payload(u).files == Payload(t).files;
    forall s | s in SkillsIn(t)
      ensures Payload(u).skills[s] == Payload(t).skills[s]
    {
      assert forall f | f in FilesIn(t, s) :: u[SkillName(s, f)] == t[SkillName(s, f)];
    }
    assert Payload(u).skills == Payload(t).skills;
  }

  lemma PayloadFiles(t: Tree)
    ensures forall k :: k in Payload(t).files <==> StaticName(k) in t
    ensures forall k | k in Payload(t).files :: Payload(t).files[k] == t[StaticName(k)]
    ensures Payload(t).skills.Keys == SkillsIn(t)
  {
    assert forall k :: StaticName(k) in t ==> StaticName(k).component in StaticsIn(t);
  }

  lemma NoSkillsWithoutRegistry(cs: seq<Component>, t: Tree)
    requires t.Keys == {ManifestName} + PathsOf(cs) && forall c | c in cs :: !c.path.SkillName?
    ensures SkillsIn(t) == {}
  {
    SkillsOfPaths(cs, t);
  }

  lemma AcceptedSkillsMatch(cs: seq<Component>, t: Tree, x: Codec)
    requires t.Keys == {ManifestName} + PathsOf(cs) && SkillsAccepted(cs, t, x)
    ensures var c, registered := Payload(t), Registry(Payload(t).files, x.checks);
      && registered.Some? && c.skills.Keys == registered.value.Keys
      && SkillsMatch(registered.value, Some(c.skills), x.checks)
  {
    hide Payload;
    PayloadFiles(t);
    if StaticName(ConfigSkills) !in t {
      NoSkillsWithoutRegistry(cs, t);
    }
  }

  /** What an accepted archive materializes to is a complete Home: exactly what recovery may apply. */
  lemma AcceptedIsVerified(a: Archive, x: Codec)
    requires Accepted(a, x)
    ensures Verified(Payload(Materialized(a, x)), x.checks)
  {
    hide Readable, Payload, Matches, ValidInventory, SkillsAccepted, SkillsMatch, Registry;
    var t, m := Extract(a), ManifestOf(a, x);
    StaticComponents(a, m, x);
    ManifestIsNoPayload(t);
    PayloadFiles(t);
    AcceptedSkillsMatch(m.components, t, x);
  }

  // ---------------------------------------------------------------- what is refused

  /** A component list is refused for a repeated id or path, a required component that is missing, or a false place. */
  lemma InventoryIsRefusedIff(cs: seq<Component>)
    ensures !ValidInventory(cs) <==>
      || (exists i, j | 0 <= i < j < |cs| :: cs[i].id == cs[j].id || cs[i].path == cs[j].path)
      || (exists k | k in {Identity, MemoryDatabase, ConversationHistory} :: forall c | c in cs :: c.id != StaticId(k))
      || (exists c | c in cs ::
            || (c.id.StaticId? && c.path != StaticName(c.id.component))
            || (c.id.StaticId? && c.required != (c.id.component in {Identity, MemoryDatabase, ConversationHistory}))
            || (c.id.SkillId? && (c.required || !c.path.SkillName?))
            || c.id.OtherId?)
  {
    hide Bound, ListsRequired, DistinctComponents;
    DistinctIff(cs);
    RequiredAreListed(cs);
    AllBoundIff(cs);
    assert !ValidInventory(cs) <==>
      !DistinctComponents(cs) || !ListsRequired(cs) || !forall c | c in cs :: Bound(c);
    assert !ListsRequired(cs) <==>
      exists k | k in {Identity, MemoryDatabase, ConversationHistory} :: forall c | c in cs :: c.id != StaticId(k);
  }

  lemma DistinctIff(cs: seq<Component>)
    ensures !DistinctComponents(cs) <==>
      exists i, j | 0 <= i < j < |cs| :: cs[i].id == cs[j].id || cs[i].path == cs[j].path
  {
  }

  lemma AllBoundIff(cs: seq<Component>)
    ensures (forall c | c in cs :: Bound(c)) <==>
      !exists c | c in cs ::
        || (c.id.StaticId? && c.path != StaticName(c.id.component))
        || (c.id.StaticId? && c.required != (c.id.component in {Identity, MemoryDatabase, ConversationHistory}))
        || (c.id.SkillId? && (c.required || !c.path.SkillName?))
        || c.id.OtherId?
  {
    forall c: Component
      ensures !Bound(c) <==>
        || (c.id.StaticId? && c.path != StaticName(c.id.component))
        || (c.id.StaticId? && c.required != (c.id.component in {Identity, MemoryDatabase, ConversationHistory}))
        || (c.id.SkillId? && (c.required || !c.path.SkillName?))
        || c.id.OtherId?
    {
      BoundIff(c);
    }
    hide Bound;
  }

  lemma BoundIff(c: Component)
    ensures !Bound(c) <==>
      || (c.id.StaticId? && c.path != StaticName(c.id.component))
      || (c.id.StaticId? && c.required != (c.id.component in {Identity, MemoryDatabase, ConversationHistory}))
      || (c.id.SkillId? && (c.required || !c.path.SkillName?))
      || c.id.OtherId?
  {
  }

  lemma RequiredAreListed(cs: seq<Component>)
    ensures ListsRequired(cs)
      <==> !exists k | k in {Identity, MemoryDatabase, ConversationHistory} :: forall c | c in cs :: c.id != StaticId(k)
  {
    assert REQUIRED == {Identity, MemoryDatabase, ConversationHistory};
    if k :| k in {Identity, MemoryDatabase, ConversationHistory} && forall c | c in cs :: c.id != StaticId(k) {
      assert k in REQUIRED;
    }
  }

  /**
    * Archived packages are refused for a registry that is too large or unreadable, a file of a package that is not
    * registered or under a false id, a registered package without files, and a package that is not as registered; and
    * without a registry for any file of a package.
    */
  lemma SkillsAreRefusedIff(cs: seq<Component>, t: Tree, x: Codec)
    requires t.Keys == {ManifestName} + PathsOf(cs)
    ensures !SkillsAccepted(cs, t, x) <==>
      if StaticName(ConfigSkills) !in t then exists c | c in cs :: c.path.SkillName?
      else
        var registry := t[StaticName(ConfigSkills)];
        || |registry| > MAX_SMALL_BYTES || x.checks.registry(registry).None?
        || var registered := x.checks.registry(registry).value;
           || (exists c | c in cs && c.path.SkillName? ::
                 c.path.skill !in registered || c.id != SkillId(c.path.skill, x.pathDigest(c.path.file)))
           || (exists s | s in registered :: forall c | c in cs :: !(c.path.SkillName? && c.path.skill == s))
           || (exists s | s in registered ::
                 x.checks.inspect(map f | f in FilesIn(t, s) :: t[SkillName(s, f)]) != Some(registered[s]))
  {
    SkillsOfPaths(cs, t);
    if StaticName(ConfigSkills) in t && x.checks.registry(t[StaticName(ConfigSkills)]).Some? {
      var registered := x.checks.registry(t[StaticName(ConfigSkills)]).value;
      RegisteredAreSeen(cs, t, registered, x);
    }
  }

  lemma RegisteredAreSeen(cs: seq<Component>, t: Tree, registered: map<Inventory.SkillId, Digest>, x: Codec)
    requires t.Keys == {ManifestName} + PathsOf(cs)
    requires SkillsIn(t) == set c | c in cs && c.path.SkillName? :: c.path.skill
    ensures registered.Keys <= SkillsIn(t) <==>
      forall s | s in registered :: exists c | c in cs :: c.path.SkillName? && c.path.skill == s
    ensures (forall c | c in cs :: SkillComponent(c, registered, x)) ==> SkillsIn(t) <= registered.Keys
  {
    if registered.Keys <= SkillsIn(t) {
      forall s | s in registered
        ensures exists c | c in cs :: c.path.SkillName? && c.path.skill == s
      {
        assert s in SkillsIn(t);
      }
    }
  }

  /**
    * An archive is accepted exactly when its members are readable, one of them is a manifest that can be read, there is
    * exactly one further member for each component, of the listed size and digest, and inventory, identity, history and
    * packages hold together.
    */
  lemma AcceptedIff(a: Archive, x: Codec)
    ensures Accepted(a, x) <==>
      && Readable(a, x)
      && exists b: Bytes ::
           && Member(ManifestName, b) in a && |b| <= MAX_SMALL_BYTES && x.decode(b).Some?
           && var cs := x.decode(b).value.components;
              && ValidInventory(cs) && |a| == |cs| + 1
              && (forall c | c in cs :: exists d ::
                    Member(c.path, d) in a && |d| == c.size && x.sha(d) == c.sha)
              && (exists d :: Member(StaticName(Identity), d) in a && |d| <= MAX_SMALL_BYTES)
              && (exists d :: Member(StaticName(ConversationHistory), d) in a && |d| <= MAX_HISTORY_BYTES)
              && x.checks.coherent(Payload(Extract(a)).files) && SkillsAccepted(cs, Extract(a), x)
  {
    hide Readable, Conforms, ValidInventory, SkillsAccepted, Extract, Payload;
    if Readable(a, x) {
      ReadableIsDistinct(a, x);
      MembersAreExtracted(a);
      if ManifestName in Extract(a) && x.decode(Extract(a)[ManifestName]).Some? {
        ConformsIff(a, x.decode(Extract(a)[ManifestName]).value, x);
      }
    }
  }

  lemma ReadableIsDistinct(a: Archive, x: Codec)
    requires Readable(a, x)
    ensures DistinctNames(a)
  {
  }

  lemma {:induction false} ExtractedNames(a: Archive)
    ensures Extract(a).Keys == set m | m in a :: m.name
  {
    if a != [] {
      var front, last := a[..|a| - 1], a[|a| - 1];
      assert a == front + [last];
      ExtractedNames(front);
    }
  }

  lemma {:induction false} AsManyAsMembers(a: Archive)
    requires DistinctNames(a)
    ensures |Extract(a)| == |a|
  {
    if a != [] {
      var front, last := a[..|a| - 1], a[|a| - 1];
      AsManyAsMembers(front);
      ExtractedNames(front);
      assert forall i | 0 <= i < |front| :: front[i] == a[i] && a[i].name != last.name;
      assert Extract(a).Keys == Extract(front).Keys + {last.name};
      assert |Extract(a).Keys| == |Extract(a)| && |Extract(front).Keys| == |Extract(front)|;
    }
  }

  lemma MembersAreExtracted(a: Archive)
    requires DistinctNames(a)
    ensures forall n, d :: Member(n, d) in a <==> n in Extract(a) && Extract(a)[n] == d
  {
    ExtractIsTheMembers(a);
  }

  lemma KeysIff(a: Archive, cs: seq<Component>)
    requires DistinctNames(a) && ManifestName in Extract(a) && ValidInventory(cs)
    ensures Extract(a).Keys == {ManifestName} + PathsOf(cs) <==>
      |a| == |cs| + 1 && forall c | c in cs :: c.path in Extract(a)
  {
    hide Extract;
    var t := Extract(a);
    AsManyAsMembers(a);
    PathsAreDistinct(cs);
    NoManifestAmongPaths(cs);
    var named := {ManifestName} + PathsOf(cs);
    assert |named| == |cs| + 1 && |t.Keys| == |t|;
    if |a| == |cs| + 1 && forall c | c in cs :: c.path in t {
      assert named <= t.Keys;
      SameSize(named, t.Keys);
    }
  }

  lemma MatchesIff(a: Archive, c: Component, x: Codec)
    requires DistinctNames(a)
    ensures Matches(Extract(a), c, x) <==> exists d :: Member(c.path, d) in a && |d| == c.size && x.sha(d) == c.sha
  {
    hide Extract;
    MembersAreExtracted(a);
  }

  lemma ReadersIff(a: Archive)
    requires DistinctNames(a)
    ensures WithinReaders(Extract(a)) <==>
      && (exists d :: Member(StaticName(Identity), d) in a && |d| <= MAX_SMALL_BYTES)
      && (exists d :: Member(StaticName(ConversationHistory), d) in a && |d| <= MAX_HISTORY_BYTES)
  {
    hide Extract;
    MembersAreExtracted(a);
  }

  lemma ConformsIff(a: Archive, m: Manifest, x: Codec)
    requires DistinctNames(a) && ManifestName in Extract(a)
    ensures Conforms(a, m, x) <==>
      && ValidInventory(m.components) && |a| == |m.components| + 1
      && (forall c | c in m.components :: exists d :: Member(c.path, d) in a && |d| == c.size && x.sha(d) == c.sha)
      && (exists d :: Member(StaticName(Identity), d) in a && |d| <= MAX_SMALL_BYTES)
      && (exists d :: Member(StaticName(ConversationHistory), d) in a && |d| <= MAX_HISTORY_BYTES)
      && x.checks.coherent(Payload(Extract(a)).files) && SkillsAccepted(m.components, Extract(a), x)
  {
    hide Payload, SkillsAccepted, Extract, ValidInventory, WithinReaders, DistinctNames, Matches;
    if ValidInventory(m.components) {
      KeysIff(a, m.components);
    }
    forall c | c in m.components
      ensures Matches(Extract(a), c, x) <==> exists d :: Member(c.path, d) in a && |d| == c.size && x.sha(d) == c.sha
      ensures Matches(Extract(a), c, x) ==> c.path in Extract(a)
    {
      MatchesIff(a, c, x);
      MatchesMeansThere(Extract(a), c, x);
    }
    ReadersIff(a);
    AsManyAsMembers(a);
  }

  lemma MatchesMeansThere(t: Tree, c: Component, x: Codec)
    ensures Matches(t, c, x) ==> c.path in t
  {
  }

  lemma SameSize(a: set<Name>, b: set<Name>)
    requires a <= b && |a| == |b|
    ensures a == b
  {
    assert b == a + (b - a);
  }

  /**
    * The manifest of an accepted archive lists at least the three required components and at most 512, none too large.
    */
  lemma AcceptedManifest(a: Archive, x: Codec)
    requires Faithful(x) && Accepted(a, x)
    ensures var cs := ManifestOf(a, x).components;
      3 <= |cs| <= 512 && forall c | c in cs :: c.size <= 0x2000_0000 && x.portable(c.path)
  {
    hide Conforms, Readable;
  }
}
