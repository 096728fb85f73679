/** The allowlist of durable Home state, and what it means for a Home to be complete. */
module Inventory {
  import opened Common

  /** The static components, in the order in which they are staged and replaced. */
  datatype ComponentId =
    | Identity
    | MemoryDatabase
    | ConversationHistory
    | ConfigHomeTimezone
    | ConfigModels
    | ConfigProactivePolicy
    | ConfigAutonomySafety
    | ConfigInternetAccess
    | ConfigActionAutonomy
    | ConfigSkills
    | ConfigGoogleCalendar
    | ConfigGoogleDrive
    | ConfigYandexMail
    | ConfigYandexDisk
    | RuntimeExternalObservations
    | RuntimeDocumentReceipts
    | RuntimeDailyReceipts
    | RuntimeAgentRuns
    | RuntimeCalendarCreateReceipts
    | RuntimeCalendarUpdateReceipts
    | RuntimeDriveDocumentCreateReceipts

  const V1_STATIC_INVENTORY: seq<ComponentId> := [
    Identity, MemoryDatabase, ConversationHistory, ConfigHomeTimezone, ConfigModels,
    ConfigProactivePolicy, ConfigAutonomySafety, ConfigInternetAccess, ConfigActionAutonomy,
    ConfigSkills, ConfigGoogleCalendar, ConfigGoogleDrive, ConfigYandexMail, ConfigYandexDisk,
    RuntimeExternalObservations, RuntimeDocumentReceipts, RuntimeDailyReceipts, RuntimeAgentRuns,
    RuntimeCalendarCreateReceipts, RuntimeCalendarUpdateReceipts, RuntimeDriveDocumentCreateReceipts
  ]

  const REQUIRED: set<ComponentId> := {Identity, MemoryDatabase, ConversationHistory}

  function Position(c: ComponentId): nat {
    match c
    case Identity => 0
    case MemoryDatabase => 1
    case ConversationHistory => 2
    case ConfigHomeTimezone => 3
    case ConfigModels => 4
    case ConfigProactivePolicy => 5
    case ConfigAutonomySafety => 6
    case ConfigInternetAccess => 7
    case ConfigActionAutonomy => 8
    case ConfigSkills => 9
    case ConfigGoogleCalendar => 10
    case ConfigGoogleDrive => 11
    case ConfigYandexMail => 12
    case ConfigYandexDisk => 13
    case RuntimeExternalObservations => 14
    case RuntimeDocumentReceipts => 15
    case RuntimeDailyReceipts => 16
    case RuntimeAgentRuns => 17
    case RuntimeCalendarCreateReceipts => 18
    case RuntimeCalendarUpdateReceipts => 19
    case RuntimeDriveDocumentCreateReceipts => 20
  }

  /** The table lists every component exactly once. */
  lemma InventoryListsEachOnce(c: ComponentId)
    ensures |V1_STATIC_INVENTORY| == 21
    ensures Position(c) < 21 && V1_STATIC_INVENTORY[Position(c)] == c
    ensures forall i | 0 <= i < 21 :: V1_STATIC_INVENTORY[i] == c ==> i == Position(c)
  {
  }

  type SkillId = string
  type Digest = string
  type Package = map<string, Bytes>
  type SkillTree = map<SkillId, Package>

  /** The owned part of a Home: one file per component, and the skills directory when it exists. */
  datatype Owned = Owned(files: map<ComponentId, Bytes>, skills: Option<SkillTree>)

  /** What a verified bundle materializes to. */
  datatype Contents = Contents(files: map<ComponentId, Bytes>, skills: SkillTree)

  /**
    * The checks whose implementation is not part of this model: identity, database and history agree
    * with one another; the skill registry parses; a package passes inspection; a backup that holds
    * these contents stays within the bounds of the format.
    */
  datatype Checks = Checks(
    coherent: map<ComponentId, Bytes> -> bool,
    registry: Bytes -> Option<map<SkillId, Digest>>,
    inspect: Package -> Option<Digest>,
    bounded: Contents -> bool)

  /** The Home that exactly the given contents would make. */
  function Image(c: Contents): Owned {
    Owned(c.files, Some(c.skills))
  }

  function Registry(files: map<ComponentId, Bytes>, k: Checks): Option<map<SkillId, Digest>> {
    if ConfigSkills in files then k.registry(files[ConfigSkills]) else Some(map[])
  }

  predicate SkillsMatch(registered: map<SkillId, Digest>, skills: Option<SkillTree>, k: Checks) {
    forall s | s in registered ::
      skills.Some? && s in skills.value && k.inspect(skills.value[s]) == Some(registered[s])
  }

  /** The required components, a registry that parses, and every registered package as registered. */
  predicate Installed(o: Owned, k: Checks) {
    && REQUIRED <= o.files.Keys
    && Registry(o.files, k).Some?
    && SkillsMatch(Registry(o.files, k).value, o.skills, k)
  }

  /** The structural validation of a current Home. */
  predicate Structured(o: Owned, k: Checks) {
    Installed(o, k) && k.coherent(o.files)
  }

  /** What a backup of this Home holds: all component files, but only the registered skills. */
  function Held(o: Owned, k: Checks): (c: Contents)
    requires Installed(o, k)
    ensures c.files == o.files && c.skills.Keys == Registry(o.files, k).value.Keys
    ensures forall s | s in c.skills :: c.skills[s] == o.skills.value[s]
  {
    Contents(o.files, map s | s in Registry(o.files, k).value :: o.skills.value[s])
  }

  /** A Home of which a backup can be made. */
  predicate Backupable(o: Owned, k: Checks) {
    Structured(o, k) && k.bounded(Held(o, k))
  }

  /** The contents of a backup of this Home, when one can be made. */
  function Snapshot(o: Owned, k: Checks): (c: Option<Contents>)
    ensures c.Some? <==> Backupable(o, k)
    ensures c.Some? ==> c.value == Held(o, k)
  {
    if Backupable(o, k) then Some(Held(o, k)) else None
  }

  /** Contents that the bundle verifier accepts. */
  predicate Verified(c: Contents, k: Checks) {
    && Structured(Image(c), k)
    && c.skills.Keys == Registry(c.files, k).value.Keys
  }

  /** What a backup of any complete Home holds, the verifier accepts. */
  lemma HeldIsVerified(o: Owned, k: Checks)
    requires Structured(o, k)
    ensures Verified(Held(o, k), k)
  {
  }

  /** A Home that was made from verified contents holds exactly those contents. */
  lemma HeldByImage(c: Contents, k: Checks)
    requires Verified(c, k)
    ensures Held(Image(c), k) == c
    ensures Backupable(Image(c), k) <==> k.bounded(c)
  {
    assert Held(Image(c), k).skills == c.skills;
  }

  /**
    * Applying a Home's own backup gives that Home back exactly when its skills directory exists
    * and holds no folder that the registry does not name.
    */
  lemma BackupKeepsHomeIff(o: Owned, k: Checks)
    requires Installed(o, k)
    ensures Image(Held(o, k)) == o
            <==> o.skills.Some? && o.skills.value.Keys == Registry(o.files, k).value.Keys
  {
    var c := Held(o, k);
    if o.skills.Some? && o.skills.value.Keys == Registry(o.files, k).value.Keys {
      assert c.skills == o.skills.value;
    }
  }
}
