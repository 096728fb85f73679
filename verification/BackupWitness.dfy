/** The assumptions about encodings and primitives can be met, and then Homes can be backed up. */
module BackupWitness {
  import opened Common
  import opened Inventory
  import opened BackupArchive
  import opened BackupStaging
  import opened BackupVerifier
  import opened BackupWriter
  import opened BackupService
  import E = Envelope

  // ---------------------------------------------------------------- numbers as bytes

  type Tokens = seq<nat>

  function Unary(n: nat): Bytes {
    seq(n, i requires 0 <= i < n => 1 as byte) + [0]
  }

  function Flatten(ts: Tokens): Bytes {
    if ts == [] then [] else Unary(ts[0]) + Flatten(ts[1..])
  }

  lemma UnaryIsPrefixFree(n: nat, m: nat, s: Bytes, t: Bytes)
    requires Unary(n) + s == Unary(m) + t
    ensures n == m && s == t
  {
    var a, b := Unary(n) + s, Unary(m) + t;
    assert a[n] == 0 && b[m] == 0;
    assert forall i | 0 <= i < n :: a[i] == 1;
    assert forall i | 0 <= i < m :: b[i] == 1;
    assert a[n + 1..] == s && b[m + 1..] == t;
  }

  lemma {:induction false} FlattenIsInjective(a: Tokens, b: Tokens)
    requires Flatten(a) == Flatten(b)
    ensures a == b
  {
    if a != [] && b != [] {
      UnaryIsPrefixFree(a[0], b[0], Flatten(a[1..]), Flatten(b[1..]));
      FlattenIsInjective(a[1..], b[1..]);
      assert a == [a[0]] + a[1..] && b == [b[0]] + b[1..];
    }
  }

  // ---------------------------------------------------------------- values as numbers

  function Text(s: string): Tokens {
    [|s|] + seq(|s|, i requires 0 <= i < |s| => s[i] as nat)
  }

  function Blob(b: Bytes): Tokens {
    [|b|] + seq(|b|, i requires 0 <= i < |b| => b[i] as nat)
  }

  function Number(i: int): Tokens {
    if i < 0 then [1, -i] else [0, i]
  }

  function OfName(n: Name): Tokens {
    match n
    case ManifestName => [0]
    case StaticName(c) => [1, Position(c)]
    case SkillName(s, f) => [2] + Text(s) + Text(f)
    case OtherName(p) => [3] + Text(p)
  }

  function OfId(i: Id): Tokens {
    match i
    case StaticId(c) => [1, Position(c)]
    case SkillId(s, d) => [2] + Text(s) + Text(d)
    case OtherId(t) => [3] + Text(t)
  }

  function OfComponent(c: Component): Tokens {
    OfId(c.id) + OfName(c.path) + [if c.required then 1 else 0, c.size] + Text(c.sha)
  }

  function OfComponents(cs: seq<Component>): Tokens {
    if cs == [] then [0] else [1] + OfComponent(cs[0]) + OfComponents(cs[1..])
  }

  function OfManifest(m: Manifest): Tokens {
    Text(m.backupId) + Number(m.createdAt) + OfComponents(m.components)
  }

  function OfArchive(a: Archive): Tokens {
    if a == [] then [0] else [1] + OfName(a[0].name) + Blob(a[0].content) + OfArchive(a[1..])
  }

  lemma TextIsPrefixFree(a: string, b: string, s: Tokens, t: Tokens)
    requires Text(a) + s == Text(b) + t
    ensures a == b && s == t
  {
    var x, y := Text(a) + s, Text(b) + t;
    assert x[0] == |a| && y[0] == |b|;
    forall i | 0 <= i < |a|
      ensures a[i] == b[i]
    {
      assert x[i + 1] == a[i] as nat && y[i + 1] == b[i] as nat;
    }
    assert x[|a| + 1..] == s && y[|b| + 1..] == t;
  }

  lemma BlobIsPrefixFree(a: Bytes, b: Bytes, s: Tokens, t: Tokens)
    requires Blob(a) + s == Blob(b) + t
    ensures a == b && s == t
  {
    var x, y := Blob(a) + s, Blob(b) + t;
    assert x[0] == |a| && y[0] == |b|;
    forall i | 0 <= i < |a|
      ensures a[i] == b[i]
    {
      assert x[i + 1] == a[i] as nat && y[i + 1] == b[i] as nat;
    }
    assert x[|a| + 1..] == s && y[|b| + 1..] == t;
  }

  lemma NumberIsPrefixFree(a: int, b: int, s: Tokens, t: Tokens)
    requires Number(a) + s == Number(b) + t
    ensures a == b && s == t
  {
    var x, y := Number(a) + s, Number(b) + t;
    assert x[0] == y[0] && x[1] == y[1];
    assert x[2..] == s && y[2..] == t;
  }

  lemma PositionsDiffer(a: ComponentId, b: ComponentId)
    requires Position(a) == Position(b)
    ensures a == b
  {
    InventoryListsEachOnce(a);
    InventoryListsEachOnce(b);
  }

  /** What stands behind the first token. */
  lemma Behind(n: nat, m: nat, s: Tokens, t: Tokens)
    requires [n] + s == [m] + t
    ensures n == m && s == t
  {
    assert ([n] + s)[0] == n && ([m] + t)[0] == m;
    assert ([n] + s)[1..] == s && ([m] + t)[1..] == t;
  }

  lemma TwoTextsArePrefixFree(a: string, b: string, c: string, d: string, s: Tokens, t: Tokens)
    requires Text(a) + Text(b) + s == Text(c) + Text(d) + t
    ensures a == c && b == d && s == t
  {
    hide Text;
    assert Text(a) + Text(b) + s == Text(a) + (Text(b) + s) && Text(c) + Text(d) + t == Text(c) + (Text(d) + t);
    TextIsPrefixFree(a, c, Text(b) + s, Text(d) + t);
    TextIsPrefixFree(b, d, s, t);
  }

  lemma NameRestIsPrefixFree(a: Name, b: Name, s: Tokens, t: Tokens)
    requires Tag(a) == Tag(b) && NameRest(a) + s == NameRest(b) + t
    ensures a == b && s == t
  {
    hide Position, Text;
    match a
    case ManifestName =>
      assert [] + s == s && [] + t == t;
    case StaticName(c) =>
      Behind(Position(c), Position(b.component), s, t);
      PositionsDiffer(c, b.component);
    case SkillName(k, f) =>
      TwoTextsArePrefixFree(k, f, b.skill, b.file, s, t);
    case OtherName(p) =>
      TextIsPrefixFree(p, b.path, s, t);
  }

  lemma NameIsPrefixFree(a: Name, b: Name, s: Tokens, t: Tokens)
    requires OfName(a) + s == OfName(b) + t
    ensures a == b && s == t
  {
    SplitName(a, s);
    SplitName(b, t);
    hide OfName, NameRest, Tag;
    Behind(Tag(a), Tag(b), NameRest(a) + s, NameRest(b) + t);
    NameRestIsPrefixFree(a, b, s, t);
  }

  function Tag(n: Name): nat {
    match n
    case ManifestName => 0
    case StaticName(_) => 1
    case SkillName(_, _) => 2
    case OtherName(_) => 3
  }

  function NameRest(n: Name): Tokens {
    match n
    case ManifestName => []
    case StaticName(c) => [Position(c)]
    case SkillName(s, f) => Text(s) + Text(f)
    case OtherName(p) => Text(p)
  }

  lemma SplitName(n: Name, s: Tokens)
    ensures OfName(n) + s == [Tag(n)] + (NameRest(n) + s)
  {
    assert OfName(n) == [Tag(n)] + NameRest(n);
  }

  /** An id is encoded as the name of the same shape. */
  function NameLike(i: Id): Name {
    match i
    case StaticId(c) => StaticName(c)
    case SkillId(s, d) => SkillName(s, d)
    case OtherId(t) => OtherName(t)
  }

  lemma IdIsPrefixFree(a: Id, b: Id, s: Tokens, t: Tokens)
    requires OfId(a) + s == OfId(b) + t
    ensures a == b && s == t
  {
    assert OfId(a) == OfName(NameLike(a)) && OfId(b) == OfName(NameLike(b));
    NameIsPrefixFree(NameLike(a), NameLike(b), s, t);
  }

  lemma ComponentIsPrefixFree(a: Component, b: Component, s: Tokens, t: Tokens)
    requires OfComponent(a) + s == OfComponent(b) + t
    ensures a == b && s == t
  {
    hide OfId, OfName, Text;
    var (fa, fb) := (if a.required then 1 else 0, if b.required then 1 else 0);
    var (ra, rb) := ([fa] + ([a.size] + (Text(a.sha) + s)), [fb] + ([b.size] + (Text(b.sha) + t)));
    assert OfComponent(a) + s == OfId(a.id) + (OfName(a.path) + ra);
    assert OfComponent(b) + t == OfId(b.id) + (OfName(b.path) + rb);
    IdIsPrefixFree(a.id, b.id, OfName(a.path) + ra, OfName(b.path) + rb);
    NameIsPrefixFree(a.path, b.path, ra, rb);
    Behind(fa, fb, [a.size] + (Text(a.sha) + s), [b.size] + (Text(b.sha) + t));
    Behind(a.size, b.size, Text(a.sha) + s, Text(b.sha) + t);
    TextIsPrefixFree(a.sha, b.sha, s, t);
  }

  lemma FirstOfComponents(cs: seq<Component>, s: Tokens)
    ensures |OfComponents(cs) + s| > 0 && (OfComponents(cs) + s)[0] == if cs == [] then 0 else 1
  {
  }

  lemma {:induction false} ComponentsArePrefixFree(a: seq<Component>, b: seq<Component>, s: Tokens, t: Tokens)
    requires OfComponents(a) + s == OfComponents(b) + t
    ensures a == b && s == t
  {
    hide OfComponent;
    FirstOfComponents(a, s);
    FirstOfComponents(b, t);
    if a == [] {
      Behind(0, 0, s, t);
    } else {
      var (ra, rb) := (OfComponents(a[1..]) + s, OfComponents(b[1..]) + t);
      assert OfComponents(a) + s == [1] + (OfComponent(a[0]) + ra);
      assert OfComponents(b) + t == [1] + (OfComponent(b[0]) + rb);
      Behind(1, 1, OfComponent(a[0]) + ra, OfComponent(b[0]) + rb);
      ComponentIsPrefixFree(a[0], b[0], ra, rb);
      ComponentsArePrefixFree(a[1..], b[1..], s, t);
      assert a == [a[0]] + a[1..] && b == [b[0]] + b[1..];
    }
  }

  lemma ManifestIsInjective(a: Manifest, b: Manifest)
    requires OfManifest(a) == OfManifest(b)
    ensures a == b
  {
    hide Text, Number, OfComponents;
    var (ca, cb) := (OfComponents(a.components), OfComponents(b.components));
    assert OfManifest(a) == Text(a.backupId) + (Number(a.createdAt) + ca);
    assert OfManifest(b) == Text(b.backupId) + (Number(b.createdAt) + cb);
    TextIsPrefixFree(a.backupId, b.backupId, Number(a.createdAt) + ca, Number(b.createdAt) + cb);
    NumberIsPrefixFree(a.createdAt, b.createdAt, ca, cb);
    assert ca + [] == ca && cb + [] == cb;
    ComponentsArePrefixFree(a.components, b.components, [], []);
  }

  lemma {:induction false} ArchiveIsInjective(a: Archive, b: Archive)
    requires OfArchive(a) == OfArchive(b)
    ensures a == b
  {
    hide OfName, Blob;
    assert a != [] ==> OfArchive(a)[0] == 1;
    assert b != [] ==> OfArchive(b)[0] == 1;
    if a != [] && b != [] {
      var (ra, rb) := (OfArchive(a[1..]), OfArchive(b[1..]));
      assert OfArchive(a) == [1] + (OfName(a[0].name) + (Blob(a[0].content) + ra));
      assert OfArchive(b) == [1] + (OfName(b[0].name) + (Blob(b[0].content) + rb));
      Behind(1, 1, OfName(a[0].name) + (Blob(a[0].content) + ra), OfName(b[0].name) + (Blob(b[0].content) + rb));
      NameIsPrefixFree(a[0].name, b[0].name, Blob(a[0].content) + ra, Blob(b[0].content) + rb);
      BlobIsPrefixFree(a[0].content, b[0].content, ra, rb);
      ArchiveIsInjective(a[1..], b[1..]);
      assert a == [a[0]] + a[1..] && b == [b[0]] + b[1..];
    }
  }

  // ---------------------------------------------------------------- a codec

  /** Each element of a set, in some order. */
  ghost function Enumerated(keys: set<string>): seq<string> {
    if keys == {} then [] else var k :| k in keys; Enumerated(keys - {k}) + [k]
  }

  lemma {:induction false} EnumeratedLists(keys: set<string>)
    ensures Lists(Enumerated(keys), keys)
  {
    if keys != {} {
      var all := Enumerated(keys);
      var k := all[|all| - 1];
      EnumeratedLists(keys - {k});
      var front := Enumerated(keys - {k});
      assert all == front + [k];
      assert forall x | x in front :: x in SetOf(front);
      assert SetOf(all) == SetOf(front) + {k};
    }
  }

  predicate Plausible(m: Manifest) {
    3 <= |m.components| <= 512 && forall c | c in m.components :: c.size <= MAX_COMPONENT_BYTES
  }

  ghost function ReadManifest(b: Bytes): Option<Manifest> {
    if m :| Plausible(m) && Flatten(OfManifest(m)) == b then Some(m) else None
  }

  ghost function ReadArchive(b: Bytes): Option<Archive> {
    if a :| Flatten(OfArchive(a)) == b then Some(a) else None
  }

  lemma ReadingReads(m: Manifest, a: Archive)
    ensures Plausible(m) ==> ReadManifest(Flatten(OfManifest(m))) == Some(m)
    ensures ReadArchive(Flatten(OfArchive(a))) == Some(a)
  {
    hide OfManifest, OfArchive, Flatten;
    var n := ReadManifest(Flatten(OfManifest(m)));
    if n.Some? {
      FlattenIsInjective(OfManifest(n.value), OfManifest(m));
      ManifestIsInjective(n.value, m);
    }
    var b := ReadArchive(Flatten(OfArchive(a)));
    if b.Some? {
      FlattenIsInjective(OfArchive(b.value), OfArchive(a));
      ArchiveIsInjective(b.value, a);
    }
  }

  /** A codec that has short forms for one manifest and one archive. */
  ghost function SomeCodec(m: Manifest, a: Archive): Codec {
    Codec(
      n => if n == m then [] else [0] + Flatten(OfManifest(n)),
      b => if b == [] then Some(m) else ReadManifest(b[1..]),
      c => if c == a then [1] else [0] + Flatten(OfArchive(c)),
      b => if b == [] then None else if b[0] == 1 then Some(a) else ReadArchive(b[1..]),
      b => "", f => f, n => true, n => true, b => [], (p: Package) => Enumerated(p.Keys),
      Checks(files => true, b => Some(map[]), p => None, c => true))
  }

  lemma SomeCodecIsFaithful(m: Manifest, a: Archive)
    requires Plausible(m)
    ensures Faithful(SomeCodec(m, a))
  {
    hide OfManifest, OfArchive, Flatten, Enumerated, ReadManifest, ReadArchive;
    var x := SomeCodec(m, a);
    forall n | ValidManifest(n, x)
      ensures x.decode(x.encode(n)) == Some(n)
    {
      ReadingReads(n, a);
      var b := [0] + Flatten(OfManifest(n));
      assert b[1..] == Flatten(OfManifest(n));
    }
    forall b
      ensures x.decode(b).Some? ==> ValidManifest(x.decode(b).value, x)
    {
      if b != [] {
        ReadIsPlausible(b[1..]);
      }
    }
    forall c
      ensures x.untar(x.tar(c)) == Some(c) && x.tar(c) != []
    {
      ReadingReads(m, c);
      var b := [0] + Flatten(OfArchive(c));
      assert b[1..] == Flatten(OfArchive(c));
    }
    forall p: Package
      ensures Lists(x.walk(p), p.Keys)
    {
      EnumeratedLists(p.Keys);
    }
  }

  lemma ReadIsPlausible(b: Bytes)
    ensures ReadManifest(b).Some? ==> Plausible(ReadManifest(b).value)
  {
    hide OfManifest, Flatten;
  }

  // ---------------------------------------------------------------- primitives

  function SomePrimitives(): E.Primitives {
    E.Primitives(
      (h: E.Header) => h.salt + h.nonce,
      b => if |b| == 28 then E.Header1(E.Header(b[..16], b[16..])) else E.Unreadable,
      (p, s) => [],
      (k, n, i) => 0,
      (b, s) => b,
      (k, n, h, c) => seq(16, i requires 0 <= i < 16 => 0))
  }

  lemma SomePrimitivesAreSound()
    ensures E.Sound(SomePrimitives())
  {
    var e := SomePrimitives();
    forall h | E.ValidHeader(h)
      ensures e.parse(e.write(h)) == E.Header1(h)
    {
      assert (h.salt + h.nonce)[..16] == h.salt && (h.salt + h.nonce)[16..] == h.nonce;
    }
  }

  // ---------------------------------------------------------------- Homes without skills

  const OCCASION := Occasion(
    "backup", 0,
    E.Header(seq(16, i requires 0 <= i < 16 => 0), seq(12, i requires 0 <= i < 12 => 0)), "secret")

  /** Files that make a Home by themselves: the required ones, no registry, and none too large. */
  predicate Sufficient(files: map<ComponentId, Bytes>) {
    && REQUIRED <= files.Keys && ConfigSkills !in files
    && forall k | k in files :: |files[k]| <= MAX_COMPONENT_BYTES
  }

  function HomeOf(files: map<ComponentId, Bytes>): Owned {
    Owned(files, None)
  }

  function HeldBy(files: map<ComponentId, Bytes>): Contents {
    Contents(files, map[])
  }

  /** A codec with nothing short; the rows of a Home do not depend on how manifests and archives are encoded. */
  ghost function PlainCodec(): Codec {
    SomeCodec(Manifest("", 0, []), [])
  }

  ghost function RowsOf(files: map<ComponentId, Bytes>): seq<Staged> {
    InventoryListsEachOnce(Identity);
    StaticRows(files, 21, PlainCodec())
  }

  ghost function ManifestOfFiles(files: map<ComponentId, Bytes>): Manifest {
    Manifest("backup", 0, Components(RowsOf(files)))
  }

  lemma {:induction false} SameStaticRows(files: map<ComponentId, Bytes>, i: nat, x: Codec, y: Codec)
    requires i <= |V1_STATIC_INVENTORY|
    requires (forall b :: x.sha(b) == y.sha(b)) && forall p :: x.pathDigest(p) == y.pathDigest(p)
    ensures StaticRows(files, i, x) == StaticRows(files, i, y)
  {
    if i > 0 {
      SameStaticRows(files, i - 1, x, y);
    }
  }

  function NamesOf(keys: set<ComponentId>): set<Name> {
    set k | k in keys :: StaticName(k)
  }

  lemma {:induction false} AsManyNames(keys: set<ComponentId>)
    ensures |NamesOf(keys)| == |keys|
  {
    if k :| k in keys {
      AsManyNames(keys - {k});
      assert NamesOf(keys) == NamesOf(keys - {k}) + {StaticName(k)};
    }
  }

  lemma {:induction false} AtMostTwentyOne(keys: set<ComponentId>, n: nat)
    requires forall k | k in keys :: Position(k) < n
    ensures |keys| <= n
  {
    if n > 0 {
      if k :| k in keys && Position(k) == n - 1 {
        forall e | e in keys - {k}
          ensures Position(e) < n - 1
        {
          if Position(e) == n - 1 {
            PositionsDiffer(e, k);
          }
        }
        AtMostTwentyOne(keys - {k}, n - 1);
      } else {
        AtMostTwentyOne(keys, n - 1);
      }
    }
  }

  lemma LayoutNames(files: map<ComponentId, Bytes>)
    ensures Layout(HeldBy(files)).Keys == NamesOf(files.Keys)
  {
  }

  lemma FilesAreFew(files: map<ComponentId, Bytes>)
    requires Sufficient(files)
    ensures 3 <= |files.Keys| <= 21
  {
    AllPositions();
    hide Position;
    AtMostTwentyOne(files.Keys, 21);
    assert files.Keys == REQUIRED + (files.Keys - REQUIRED) && |REQUIRED| == 3;
  }

  /** The layout of such a Home: one payload name for each file. */
  lemma LayoutOfFiles(files: map<ComponentId, Bytes>)
    requires Sufficient(files)
    ensures var t := Layout(HeldBy(files));
      && t.Keys == NamesOf(files.Keys) && 3 <= |t| <= 21 && |t| == |files| && PayloadNames(t)
      && (forall k | k in files :: StaticName(k) in t && t[StaticName(k)] == files[k])
      && (forall n | n in t :: n.StaticName? && n.component in files)
      && (forall n | n in t :: |t[n]| <= MAX_COMPONENT_BYTES)
  {
    LayoutMembers(HeldBy(files));
    var t := Layout(HeldBy(files));
    LayoutNames(files);
    FilesAreFew(files);
    hide Layout;
    AsManyNames(files.Keys);
    assert |t.Keys| == |t| && |files.Keys| == |files|;
  }

  lemma StaticsOfFiles(files: map<ComponentId, Bytes>)
    ensures StaticsBefore(files, 21) == NamesOf(files.Keys) && |V1_STATIC_INVENTORY| == 21
  {
    AllPositions();
    InventoryListsEachOnce(Identity);
    hide Position;
  }

  lemma RowsOfAreStaged(files: map<ComponentId, Bytes>)
    requires Sufficient(files)
    ensures StagedFrom(RowsOf(files), Layout(HeldBy(files)).Keys, Layout(HeldBy(files)), PlainCodec())
  {
    hide Layout, StaticsBefore, Position, PlainCodec, StaticRows, StagedFrom, NamesOf;
    StaticsOfFiles(files);
    LayoutOfFiles(files);
    StaticRowsAreStaged(files, 21, Layout(HeldBy(files)), PlainCodec());
  }

  lemma RowSizes(rows: seq<Staged>, t: Tree, x: Codec)
    requires StagedFrom(rows, t.Keys, t, x) && forall n | n in t :: |t[n]| <= MAX_COMPONENT_BYTES
    ensures |Components(rows)| == |t| && forall c | c in Components(rows) :: c.size <= MAX_COMPONENT_BYTES
  {
    RowsAreFromTree(rows, t, x);
    assert |t.Keys| == |t|;
    hide StagedFrom;
    forall c | c in Components(rows)
      ensures c.size <= MAX_COMPONENT_BYTES
    {
      var i :| 0 <= i < |rows| && Components(rows)[i] == c;
    }
  }

  lemma ManifestOfFilesIsPlausible(files: map<ComponentId, Bytes>)
    requires Sufficient(files)
    ensures Plausible(ManifestOfFiles(files))
  {
    hide Layout, PlainCodec, RowsOf, StagedFrom, Sufficient, Components, NamesOf, PayloadNames;
    RowsOfAreStaged(files);
    LayoutOfFiles(files);
    RowSizes(RowsOf(files), Layout(HeldBy(files)), PlainCodec());
  }

  /** The codec whose short forms are this Home's manifest and some archive. */
  ghost function CodecFor(files: map<ComponentId, Bytes>, a: Archive): Codec {
    SomeCodec(ManifestOfFiles(files), a)
  }

  lemma CodecForIsFaithful(files: map<ComponentId, Bytes>, a: Archive)
    requires Sufficient(files)
    ensures Faithful(CodecFor(files, a))
  {
    hide Faithful, ManifestOfFiles, SomeCodec, Plausible;
    ManifestOfFilesIsPlausible(files);
    SomeCodecIsFaithful(ManifestOfFiles(files), a);
  }

  lemma HomeIsStructured(files: map<ComponentId, Bytes>, a: Archive)
    requires Sufficient(files)
    ensures var k, h := CodecFor(files, a).checks, HeldBy(files);
      Structured(HomeOf(files), k) && Held(HomeOf(files), k) == h && Holdable(h, k)
  {
    hide ManifestOfFiles;
    assert Held(HomeOf(files), CodecFor(files, a).checks).skills == map[];
  }

  /** The codec digests files and paths as the plain one does, lists no skill, and refuses no name. */
  lemma CodecForIsPlain(files: map<ComponentId, Bytes>, a: Archive)
    requires ConfigSkills !in files
    ensures var x, y := CodecFor(files, a), PlainCodec();
      && Order(files, x) == [] && x.encode(ManifestOfFiles(files)) == []
      && (forall b :: x.sha(b) == y.sha(b)) && (forall p :: x.pathDigest(p) == y.pathDigest(p))
      && forall n :: x.safe(n) && x.portable(n)
  {
    hide ManifestOfFiles;
  }

  lemma RowsOfAreTheRows(files: map<ComponentId, Bytes>, a: Archive, x: Codec)
    requires Sufficient(files) && x == CodecFor(files, a) && Faithful(x)
    ensures Holdable(HeldBy(files), x.checks) && Rows(HeldBy(files), x) == RowsOf(files)
    ensures ManifestFor(HeldBy(files), "backup", 0, x) == ManifestOfFiles(files)
  {
    HomeIsStructured(files, a);
    CodecForIsPlain(files, a);
    StaticsOfFiles(files);
    hide Faithful, StaticRows, PlainCodec, CodecFor, Registry;
    SameStaticRows(files, 21, x, PlainCodec());
    assert StaticRows(files, 21, x) + [] == StaticRows(files, 21, x);
  }

  lemma ShortTape(files: map<ComponentId, Bytes>, a: Archive)
    ensures CodecFor(files, a).tar(a) == [1]
  {
    hide ManifestOfFiles;
  }

  lemma FilesFit(files: map<ComponentId, Bytes>, a: Archive, x: Codec)
    requires Sufficient(files) && x == CodecFor(files, a)
    ensures var t := Layout(HeldBy(files));
      |t| <= 512 && forall n | n in t :: x.safe(n) && Fits(n, t[n], x)
  {
    hide Layout, CodecFor, Sufficient, NamesOf, PayloadNames;
    SufficientMeans(files);
    CodecForIsPlain(files, a);
    LayoutOfFiles(files);
  }

  lemma SufficientMeans(files: map<ComponentId, Bytes>)
    requires Sufficient(files)
    ensures REQUIRED <= files.Keys && ConfigSkills !in files
  {
  }

  /** All the bounds but that of the sealed bundle hold. */
  lemma FilesAreBounded(files: map<ComponentId, Bytes>, a: Archive, x: Codec)
    requires Sufficient(files) && x == CodecFor(files, a) && Faithful(x)
    requires REQUIRED <= files.Keys && ReaderBounds(files)
    ensures Holdable(HeldBy(files), x.checks) && Stageable(HomeOf(files), x)
    ensures Bounded(HeldBy(files), ManifestFor(HeldBy(files), "backup", 0, x), x)
  {
    hide Faithful, Layout, CodecFor, ManifestOfFiles, ManifestFor, Rows, Held, Registry, SkillsMatch, Sufficient, Fits;
    hide ReaderBounds, Stageable, Installed;
    SufficientMeans(files);
    HomeIsStructured(files, a);
    StructuredIsInstalled(HomeOf(files), x);
    CodecForIsPlain(files, a);
    RowsOfAreTheRows(files, a, x);
    FilesFit(files, a, x);
    StageableMeans(HomeOf(files), x);
  }

  lemma StructuredIsInstalled(o: Owned, x: Codec)
    requires Structured(o, x.checks)
    ensures Installed(o, x.checks)
  {
  }

  // ---------------------------------------------------------------- a backup

  const FILES: map<ComponentId, Bytes> := map[Identity := [1], MemoryDatabase := [2], ConversationHistory := [3]]

  ghost function SmallArchive(): Archive {
    [Member(ManifestName, [])] + Members(RowsOf(FILES))
  }

  lemma FilesSuffice()
    ensures Sufficient(FILES) && ReaderBounds(FILES)
  {
  }

  lemma SmallTape(x: Codec)
    requires x == CodecFor(FILES, SmallArchive()) && Faithful(x)
    ensures Holdable(HeldBy(FILES), x.checks) && x.tar(ArchiveFor(HeldBy(FILES), "backup", 0, x)) == [1]
  {
    hide Faithful, Rows, RowsOf, Components, Members, CodecFor, ManifestFor, ManifestOfFiles, Holdable;
    FilesSuffice();
    RowsOfAreTheRows(FILES, SmallArchive(), x);
    CodecForIsPlain(FILES, SmallArchive());
    ShortTape(FILES, SmallArchive());
  }

  lemma SealedSize(e: E.Primitives, h: E.Header, passphrase: string, plaintext: Bytes)
    requires E.Sound(e) && E.ValidHeader(h)
    ensures |plaintext| <= |E.Seal(e, h, passphrase, plaintext)| <= 12 + E.MAX_HEADER + |plaintext| + E.TAG
  {
  }

  /** The bounds on an occasion, put together. */
  lemma WithinParts(h: Contents, c: Occasion, x: Codec, e: E.Primitives)
    requires Faithful(x) && E.Sound(e) && ValidOccasion(c) && Holdable(h, x.checks)
    ensures Within(h, c, x, e) <==>
      && (forall n | n in Layout(h) :: Fits(n, Layout(h)[n], x))
      && Bounded(h, ManifestFor(h, c.backupId, c.now, x), x)
      && |E.Seal(e, c.header, c.passphrase, x.tar(ArchiveFor(h, c.backupId, c.now, x)))| <= E.MAX_BUNDLE
  {
    hide Faithful, E.Sound, E.Seal, Holdable, Layout, Fits, Bounded, ManifestFor, ArchiveFor;
  }

  /** There is a faithful codec, there are sound primitives, and there is a Home that they can back up. */
  lemma BackupsExist()
    ensures var x, e := CodecFor(FILES, SmallArchive()), SomePrimitives();
      && Faithful(x) && E.Sound(e) && ValidOccasion(OCCASION) && BackupPossible(HomeOf(FILES), OCCASION, x, e)
  {
    hide Faithful, E.Sound, E.Seal, CodecFor, SomePrimitives, Structured, Held, Holdable, Bounded, Fits, Layout;
    hide ArchiveFor, ManifestFor, Sufficient, ReaderBounds, Within, SmallArchive;
    var x, e := CodecFor(FILES, SmallArchive()), SomePrimitives();
    FilesSuffice();
    CodecForIsFaithful(FILES, SmallArchive());
    SomePrimitivesAreSound();
    HomeIsStructured(FILES, SmallArchive());
    FilesAreBounded(FILES, SmallArchive(), x);
    FilesFit(FILES, SmallArchive(), x);
    SmallTape(x);
    SealedSize(e, OCCASION.header, "secret", [1]);
    WithinParts(HeldBy(FILES), OCCASION, x, e);
  }

  // ---------------------------------------------------------------- a Home that is too large

  /** All the bytes that the members carry. */
  function TotalSize(a: Archive): nat {
    if a == [] then 0 else |a[0].content| + TotalSize(a[1..])
  }

  /** A tape is no shorter than what it carries. */
  ghost predicate Carries(x: Codec) {
    forall a :: TotalSize(a) <= |x.tar(a)|
  }

  lemma {:induction false} FlattenIsNoShorter(a: Tokens, b: Tokens)
    ensures Flatten(a + b) == Flatten(a) + Flatten(b) && |a| <= |Flatten(a)|
  {
    if a == [] {
      assert a + b == b;
    } else {
      FlattenIsNoShorter(a[1..], b);
      assert (a + b)[0] == a[0] && (a + b)[1..] == a[1..] + b;
    }
  }

  lemma {:induction false} TokensCarry(a: Archive)
    ensures TotalSize(a) <= |OfArchive(a)|
  {
    if a != [] {
      TokensCarry(a[1..]);
    }
  }

  lemma SomeCodecCarries(m: Manifest)
    ensures Carries(SomeCodec(m, []))
  {
    forall a
      ensures TotalSize(a) <= |SomeCodec(m, []).tar(a)|
    {
      TokensCarry(a);
      FlattenIsNoShorter(OfArchive(a), []);
    }
  }

  /** The names of the members that are at least this large. */
  function Large(a: Archive, size: nat): set<Name> {
    set m | m in a && size <= |m.content| :: m.name
  }

  lemma LargeOfFirst(a: Archive, size: nat)
    requires a != []
    ensures |Large(a, size)| <= |Large(a[1..], size)| + if size <= |a[0].content| then 1 else 0
  {
    assert a == [a[0]] + a[1..];
    var rest := Large(a[1..], size);
    assert Large(a, size) == if size <= |a[0].content| then rest + {a[0].name} else rest;
  }

  lemma NoMoreTimes(n: nat, m: nat, size: nat)
    requires n <= m
    ensures n * size <= m * size
  {
    assert m * size == n * size + (m - n) * size;
  }

  lemma OneMoreTimes(n: nat, m: nat, size: nat)
    ensures n <= m + 1 ==> n * size <= m * size + size
    ensures n <= m ==> n * size <= m * size
  {
    if n <= m {
      NoMoreTimes(n, m, size);
    } else if n == m + 1 {
      assert n * size == m * size + size;
    }
  }

  lemma {:induction false} LargeMembersAddUp(a: Archive, size: nat)
    ensures |Large(a, size)| * size <= TotalSize(a)
  {
    if a == [] {
      assert Large(a, size) == {};
    } else {
      hide Large;
      LargeMembersAddUp(a[1..], size);
      LargeOfFirst(a, size);
      OneMoreTimes(|Large(a, size)|, |Large(a[1..], size)|, size);
    }
  }

  /** Half a GiB of zeros. */
  function Half(): Bytes {
    seq(MAX_COMPONENT_BYTES, i requires 0 <= i < MAX_COMPONENT_BYTES => 0)
  }

  const FIVE: set<ComponentId> :=
    {MemoryDatabase, ConfigModels, ConfigGoogleDrive, RuntimeAgentRuns, RuntimeDocumentReceipts}

  /** A Home with five files of that size, the most that one file may have. */
  function LargeFiles(): map<ComponentId, Bytes> {
    map k | k in FIVE + REQUIRED :: if k in FIVE then Half() else [1]
  }

  lemma LargeFilesSuffice()
    ensures Sufficient(LargeFiles()) && REQUIRED <= LargeFiles().Keys && ReaderBounds(LargeFiles())
    ensures forall k | k in FIVE :: k in LargeFiles() && |LargeFiles()[k]| == MAX_COMPONENT_BYTES
  {
  }

  lemma LargeTape(x: Codec)
    requires x == CodecFor(LargeFiles(), []) && Faithful(x) && Carries(x)
    ensures Holdable(HeldBy(LargeFiles()), x.checks)
    ensures |x.tar(ArchiveFor(HeldBy(LargeFiles()), "backup", 0, x))| >= 5 * MAX_COMPONENT_BYTES
  {
    var files, h := LargeFiles(), HeldBy(LargeFiles());
    hide Layout, CodecFor, Faithful, ManifestFor, Rows, StagedFrom;
    hide LargeFiles, Sufficient, Written, Holdable, ReaderBounds;
    LargeFilesSuffice();
    HomeIsStructured(files, []);
    StructuredIsInstalled(HomeOf(files), x);
    RowsAreStaged(HomeOf(files), x);
    LayoutOfFiles(files);
    var a := ArchiveFor(h, "backup", 0, x);
    WrittenMembers(ManifestFor(h, "backup", 0, x), Rows(h, x), Layout(h), x);
    forall k | k in FIVE
      ensures StaticName(k) in Large(a, MAX_COMPONENT_BYTES)
    {
      assert Member(StaticName(k), files[k]) in a;
      IsLarge(a, Member(StaticName(k), files[k]), MAX_COMPONENT_BYTES);
    }
    LargeNames(a);
    LargeMembersAddUp(a, MAX_COMPONENT_BYTES);
  }

  lemma IsLarge(a: Archive, m: Member, size: nat)
    requires m in a && size <= |m.content|
    ensures m.name in Large(a, size)
  {
  }

  lemma LargeNames(a: Archive)
    requires forall k | k in FIVE :: StaticName(k) in Large(a, MAX_COMPONENT_BYTES)
    ensures |Large(a, MAX_COMPONENT_BYTES)| >= 5
  {
    hide Large;
    var large := Large(a, MAX_COMPONENT_BYTES);
    AsManyNames(FIVE);
    assert NamesOf(FIVE) <= large && |FIVE| == 5;
    assert large == NamesOf(FIVE) + (large - NamesOf(FIVE));
  }

  /**
    * Each file fits, the Home is complete and can be staged, and the archive stays within its bounds; only the sealed
    * bundle would be too large, with any tape format that is no shorter than what it carries.
    */
  lemma TooLargeTogether()
    ensures var x, e, o := CodecFor(LargeFiles(), []), SomePrimitives(), HomeOf(LargeFiles());
      && Faithful(x) && Carries(x) && E.Sound(e) && ValidOccasion(OCCASION) && OCCASION.passphrase != ""
      && Structured(o, x.checks) && Stageable(o, x) && Holdable(Held(o, x.checks), x.checks)
      && Bounded(Held(o, x.checks), ManifestFor(Held(o, x.checks), OCCASION.backupId, OCCASION.now, x), x)
      && |BundleFor(Held(o, x.checks), OCCASION, x, e)| > E.MAX_BUNDLE && !BackupPossible(o, OCCASION, x, e)
  {
    hide Faithful, E.Sound, E.Seal, CodecFor, SomePrimitives, Structured;
    hide Held, Holdable, Bounded, Carries, Fits, Layout;
    hide ArchiveFor, ManifestFor, Sufficient, ReaderBounds, LargeFiles, Stageable, Within;
    var x, e, files := CodecFor(LargeFiles(), []), SomePrimitives(), LargeFiles();
    LargeFilesSuffice();
    CodecForCarries(files);
    CodecForIsFaithful(files, []);
    SomePrimitivesAreSound();
    HomeIsStructured(files, []);
    FilesAreBounded(files, [], x);
    LargeTape(x);
    SealedSize(e, OCCASION.header, "secret", x.tar(ArchiveFor(HeldBy(files), "backup", 0, x)));
    WithinParts(HeldBy(files), OCCASION, x, e);
  }

  lemma CodecForCarries(files: map<ComponentId, Bytes>)
    ensures Carries(CodecFor(files, []))
  {
    hide ManifestOfFiles;
    SomeCodecCarries(ManifestOfFiles(files));
  }

  // ---------------------------------------------------------------- bounds that recovery can know

  lemma {:induction false} SamePackageRows(skills: SkillTree, ids: seq<Inventory.SkillId>, x: Codec, y: Codec)
    requires Faithful(x) && Faithful(y) && y == x.(checks := y.checks) && forall s | s in ids :: s in skills
    ensures PackageRows(skills, ids, x) == PackageRows(skills, ids, y)
  {
    hide Faithful;
    if ids != [] {
      var s := ids[|ids| - 1];
      SamePackageRows(skills, ids[..|ids| - 1], x, y);
      WalkIsInside(skills[s], x);
      assert FileRows(s, skills[s], x.walk(skills[s]), x) == FileRows(s, skills[s], x.walk(skills[s]), y);
    }
  }

  lemma SameWithin(h: Contents, c: Occasion, x: Codec, y: Codec, e: E.Primitives)
    requires Faithful(x) && Faithful(y) && E.Sound(e) && ValidOccasion(c)
    requires y == x.(checks := x.checks.(bounded := y.checks.bounded)) && Holdable(h, x.checks)
    ensures Holdable(h, y.checks) && (Within(h, c, x, e) <==> Within(h, c, y, e))
  {
    hide Faithful, E.Sound, E.Seal, Layout, PackageRows, StaticRows;
    InventoryListsEachOnce(Identity);
    SameStaticRows(h.files, |V1_STATIC_INVENTORY|, x, y);
    OrderIsTheRegistry(h.files, x);
    SamePackageRows(h.skills, Order(h.files, x), x, y);
    assert Rows(h, x) == Rows(h, y);
  }

  /** Whatever the codec, recovery can be given exactly the bounds of the format. */
  lemma BoundsCanBeKnown(x: Codec, c: Occasion, e: E.Primitives)
    requires Faithful(x) && E.Sound(e) && ValidOccasion(c)
    ensures exists y :: Faithful(y) && y == x.(checks := x.checks.(bounded := y.checks.bounded)) && KnowsBounds(c, y, e)
  {
    var limit := (h: Contents) => Holdable(h, x.checks) && Within(h, c, x, e);
    var y := x.(checks := x.checks.(bounded := limit));
    assert Faithful(y);
    forall h | Holdable(h, y.checks)
      ensures y.checks.bounded(h) <==> Within(h, c, y, e)
    {
      assert Holdable(h, x.checks);
      SameWithin(h, c, x, y, e);
    }
    hide Faithful, Within;
    assert KnowsBounds(c, y, e);
  }
}
