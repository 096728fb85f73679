/** The payload of a backup: named members, a manifest that lists them, and what the verifier demands of both. */
module BackupArchive {
  import opened Common
  import opened Inventory

  const MAX_COMPONENT_BYTES := 0x2000_0000
  const MAX_SMALL_BYTES := 0x8_0000
  const MAX_HISTORY_BYTES := 0x200_0000
  const MAX_MEMBERS := 513

  /** A member's path, split as the inventory table and the skills layout split it. */
  datatype Name = ManifestName | StaticName(component: ComponentId) | SkillName(skill: SkillId, file: string)
    | OtherName(path: string)

  /** A manifest's component id; a skill file is named by the digest of its path inside the package. */
  datatype Id = StaticId(component: ComponentId) | SkillId(skill: SkillId, pathDigest: string) | OtherId(text: string)

  datatype Component = Component(id: Id, path: Name, required: bool, size: nat, sha: Digest)

  datatype Manifest = Manifest(backupId: string, createdAt: int, components: seq<Component>)

  datatype Member = Member(name: Name, content: Bytes)

  type Archive = seq<Member>

  /**
    * What is not part of this model: the text form of manifests, the tape format, digests, the two name checks, and
    * the orders in which a registry lists its skills and a directory walk meets a package's files.
    */
  datatype Codec = Codec(
    encode: Manifest -> Bytes,
    decode: Bytes -> Option<Manifest>,
    tar: Archive -> Bytes,
    untar: Bytes -> Option<Archive>,
    sha: Bytes -> Digest,
    pathDigest: string -> string,
    safe: Name -> bool,
    portable: Name -> bool,
    listed: Bytes -> seq<Inventory.SkillId>,
    walk: Package -> seq<string>,
    checks: Checks)

  predicate ValidManifest(m: Manifest, x: Codec) {
    && 3 <= |m.components| <= 512
    && forall c | c in m.components :: c.size <= MAX_COMPONENT_BYTES && x.portable(c.path)
  }

  function SetOf(s: seq<string>): set<string> {
    set x | x in s
  }

  /** Each key once, in some order. */
  predicate Lists(s: seq<string>, keys: set<string>) {
    SetOf(s) == keys && forall i, j | 0 <= i < j < |s| :: s[i] != s[j]
  }

  /**
    * What the collaborators promise: encodings are read back, path digests differ, packages hold files, orders omit
    * nothing.
    */
  ghost predicate Faithful(x: Codec) {
    && (forall m | ValidManifest(m, x) :: x.decode(x.encode(m)) == Some(m))
    && (forall b :: x.decode(b).Some? ==> ValidManifest(x.decode(b).value, x))
    && (forall a :: x.untar(x.tar(a)) == Some(a) && x.tar(a) != [])
    && (forall a, b | x.pathDigest(a) == x.pathDigest(b) :: a == b)
    && x.safe(ManifestName)
    && (forall c :: x.safe(StaticName(c)) && x.portable(StaticName(c)))
    && x.checks.inspect(map[]).None?
    && (forall p :: Lists(x.walk(p), p.Keys))
    && (forall b :: x.checks.registry(b).Some? ==> Lists(x.listed(b), x.checks.registry(b).value.Keys))
  }

  // ---------------------------------------------------------------- what a list of members holds

  predicate DistinctNames(a: Archive) {
    forall i, j | 0 <= i < j < |a| :: a[i].name != a[j].name
  }

  function PathsOf(cs: seq<Component>): set<Name> {
    set c | c in cs :: c.path
  }

  /** A directory of files, as staging and materializing leave it. */
  type Tree = map<Name, Bytes>

  /** Every member written under its name. */
  function Extract(a: Archive): Tree {
    if a == [] then map[] else Extract(a[..|a| - 1])[a[|a| - 1].name := a[|a| - 1].content]
  }

  lemma {:induction false} ExtractIsTheMembers(a: Archive)
    requires DistinctNames(a)
    ensures forall m | m in a :: m.name in Extract(a) && Extract(a)[m.name] == m.content
    ensures forall n | n in Extract(a) :: Member(n, Extract(a)[n]) in a
  {
    if a != [] {
      var front, last := a[..|a| - 1], a[|a| - 1];
      assert a == front + [last];
      ExtractIsTheMembers(front);
      assert forall i | 0 <= i < |front| :: front[i] == a[i] && a[i].name != last.name;
    }
  }

  // ---------------------------------------------------------------- directories and contents

  function SkillsIn(t: Tree): set<Inventory.SkillId> {
    set n | n in t && n.SkillName? :: n.skill
  }

  function FilesIn(t: Tree, skill: Inventory.SkillId): set<string> {
    set n | n in t && n.SkillName? && n.skill == skill :: n.file
  }

  function StaticsIn(t: Tree): set<ComponentId> {
    set n | n in t && n.StaticName? :: n.component
  }

  /** The static files and the skill packages of a directory. */
  function Payload(t: Tree): Contents {
    Contents(
      map k | k in StaticsIn(t) :: t[StaticName(k)],
      map s | s in SkillsIn(t) :: map f | f in FilesIn(t, s) :: t[SkillName(s, f)])
  }

  function StaticNames(c: Contents): set<Name> {
    set k | k in c.files :: StaticName(k)
  }

  function SkillNames(c: Contents): set<Name> {
    set s, f | s in c.skills && f in c.skills[s] :: SkillName(s, f)
  }

  /** The directory that holds exactly these contents. */
  function Layout(c: Contents): Tree {
    map n | n in StaticNames(c) + SkillNames(c) ::
      match n
      case StaticName(k) => c.files[k]
      case SkillName(s, f) => c.skills[s][f]
      case _ => []
  }

  /** No package is empty; a directory cannot hold one that is. */
  predicate NoEmptyPackage(c: Contents) {
    forall s | s in c.skills :: c.skills[s] != map[]
  }

  lemma LayoutMembers(c: Contents)
    ensures forall k :: StaticName(k) in Layout(c) <==> k in c.files
    ensures forall s, f :: SkillName(s, f) in Layout(c) <==> s in c.skills && f in c.skills[s]
    ensures forall n | n in Layout(c) :: n.StaticName? || n.SkillName?
    ensures forall k | k in c.files :: Layout(c)[StaticName(k)] == c.files[k]
    ensures forall s, f | s in c.skills && f in c.skills[s] :: Layout(c)[SkillName(s, f)] == c.skills[s][f]
  {
  }

  lemma PackageRoundTrip(c: Contents, s: Inventory.SkillId)
    requires s in c.skills && c.skills[s] != map[]
    ensures s in SkillsIn(Layout(c)) && Payload(Layout(c)).skills[s] == c.skills[s]
  {
    hide Layout;
    LayoutMembers(c);
    var t := Layout(c);
    var f :| f in c.skills[s];
    assert SkillName(s, f) in t && SkillName(s, f).skill == s;
    forall g | g in c.skills[s]
      ensures g in FilesIn(t, s)
    {
      assert SkillName(s, g) in t && SkillName(s, g).file == g;
    }
    assert FilesIn(t, s) == c.skills[s].Keys;
  }

  lemma FilesRoundTrip(c: Contents)
    ensures Payload(Layout(c)).files == c.files
  {
    hide Layout;
    LayoutMembers(c);
    var t := Layout(c);
    forall k | k in c.files
      ensures k in StaticsIn(t)
    {
      assert StaticName(k) in t && StaticName(k).component == k;
    }
    assert StaticsIn(t) == c.files.Keys;
  }

  lemma SkillsRoundTrip(c: Contents)
    requires NoEmptyPackage(c)
    ensures Payload(Layout(c)).skills == c.skills
  {
    hide Layout;
    LayoutMembers(c);
    var t := Layout(c);
    forall s | s in c.skills
      ensures s in SkillsIn(t) && Payload(t).skills[s] == c.skills[s]
    {
      PackageRoundTrip(c, s);
    }
    assert SkillsIn(t) == c.skills.Keys;
  }

  /** Laying contents out and reading the directory gives the contents back. */
  lemma LayoutRoundTrip(c: Contents)
    requires NoEmptyPackage(c)
    ensures Payload(Layout(c)) == c
  {
    FilesRoundTrip(c);
    SkillsRoundTrip(c);
  }
}
