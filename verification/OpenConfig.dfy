/** Opening the configuration: filling defaults, migrating old files, hashing plain passwords, and when all this is
    written back. */
module OpenConfig {
  import opened Text
  import opened Config
  import opened Password

  const DEFAULT_LISTEN := ":8080"
  const DEFAULT_WS_PATH := "/api/ws/client"
  const DEFAULT_AUTH_USER := "admin"
  const DEFAULT_AUTH_PASSWORD := "admin"
  const CURRENT_VERSION := 2

  /** The settings keys whose default is not the zero value. */
  datatype Key = Listen | WsPath | AuthEnable | AuthUser | AuthPassword

  /** A parsed "settings" object: absent keys other than these read as zero. */
  datatype RawSettings = RawSettings(values: Settings, present: set<Key>)

  /** A parsed document; None for an absent key. */
  datatype Document = Document(version: Option<int>, settings: Option<RawSettings>,
                               devices: Option<seq<Device>>, groups: Option<seq<Group>>, schedules: Option<seq<Schedule>>)

  datatype OnDisk = Missing | Unreadable | Empty | NotJson | Parsed(doc: Document)

  /** Random choices, and whether the file can be written. */
  datatype Env = Env(defaultSalt: nat, fillSalt: nat, migrateSalt: nat, saves: bool)

  datatype Opened = Refused | Opened(file: File, disk: OnDisk)

  const NO_SETTINGS: Settings :=
    Settings("", "", "", "", false, "", "", false, "", "", false, false, false, false)

  function DefaultPassword(h: Scheme, salt: nat): string {
    var hashed := h.hash(DEFAULT_AUTH_PASSWORD, salt);
    if hashed.Some? then hashed.value else DEFAULT_AUTH_PASSWORD
  }

  function DefaultSettings(h: Scheme, salt: nat): Settings {
    NO_SETTINGS.(listen := DEFAULT_LISTEN, wsPath := DEFAULT_WS_PATH, basicAuthEnable := true,
                 basicAuthUser := DEFAULT_AUTH_USER, basicAuthPassword := DefaultPassword(h, salt))
  }

  function DefaultFile(h: Scheme, salt: nat): File {
    File(CURRENT_VERSION, DefaultSettings(h, salt), Lists([], [], []))
  }

  /** Decoding into the defaults: a key that is absent keeps its default. */
  function Decoded(h: Scheme, salt: nat, doc: Document): File {
    var d := DefaultFile(h, salt);
    var s := if doc.settings.None? then d.settings else OverDefaults(d.settings, doc.settings.value);
    File(if doc.version.None? then d.version else doc.version.value, s,
         Lists(if doc.devices.None? then [] else doc.devices.value,
               if doc.groups.None? then [] else doc.groups.value,
               if doc.schedules.None? then [] else doc.schedules.value))
  }

  function OverDefaults(d: Settings, raw: RawSettings): Settings {
    raw.values.(listen := if Listen in raw.present then raw.values.listen else d.listen,
                wsPath := if WsPath in raw.present then raw.values.wsPath else d.wsPath,
                basicAuthEnable := if AuthEnable in raw.present then raw.values.basicAuthEnable else d.basicAuthEnable,
                basicAuthUser := if AuthUser in raw.present then raw.values.basicAuthUser else d.basicAuthUser,
                basicAuthPassword := if AuthPassword in raw.present then raw.values.basicAuthPassword else d.basicAuthPassword)
  }

  /** A file from before authentication was introduced. */
  predicate NeedsAuthMigration(doc: Document) {
    doc.settings.None? || AuthEnable !in doc.settings.value.present
  }

  function AuthMigrated(s: Settings): Settings {
    s.(basicAuthEnable := true,
       basicAuthUser := if Trim(s.basicAuthUser) == "" then DEFAULT_AUTH_USER else s.basicAuthUser,
       basicAuthPassword := if Trim(s.basicAuthPassword) == "" then DEFAULT_AUTH_PASSWORD else s.basicAuthPassword)
  }

  function NormalizedDevices(ds: seq<Device>): (r: seq<Device>)
    ensures |r| == |ds| && forall i :: 0 <= i < |ds| ==> r[i] == NormalizeDevice(ds[i])
  {
    seq(|ds|, i requires 0 <= i < |ds| => NormalizeDevice(ds[i]))
  }

  function NormalizedSchedules(ss: seq<Schedule>): (r: seq<Schedule>)
    ensures |r| == |ss| && forall i :: 0 <= i < |ss| ==> r[i] == NormalizeSchedule(ss[i])
  {
    seq(|ss|, i requires 0 <= i < |ss| => NormalizeSchedule(ss[i]))
  }

  /** The password after normalizing, and whether that calls for a save. */
  function NormalizedPassword(h: Scheme, e: Env, password: string): (string, bool) {
    if Trim(password) == "" then (DefaultPassword(h, e.fillSalt), true)
    else
      var m := EnsurePasswordHashed(h, password, e.migrateSalt);
      (m.stored, m.changed)
  }

  function WithPassword(f: File, password: string): File {
    f.(settings := f.settings.(basicAuthPassword := password))
  }

  /** Everything normalize fills in but the password. */
  function Completed(f: File): File {
    var s := f.settings;
    f.(settings := s.(listen := if s.listen == "" then DEFAULT_LISTEN else s.listen,
                      wsPath := if s.wsPath == "" then DEFAULT_WS_PATH else s.wsPath,
                      basicAuthUser := if Trim(s.basicAuthUser) == "" then DEFAULT_AUTH_USER else s.basicAuthUser),
       lists := f.lists.(devices := NormalizedDevices(f.lists.devices), schedules := NormalizedSchedules(f.lists.schedules)))
  }

  function Normalized(h: Scheme, e: Env, f: File): File {
    WithPassword(Completed(f), NormalizedPassword(h, e, f.settings.basicAuthPassword).0)
  }

  /** What the saved file reads as: omitted keys are at their defaults. */
  function Written(f: File): OnDisk {
    Parsed(Document(Some(f.version), Some(RawSettings(f.settings, {Listen, WsPath, AuthEnable, AuthUser, AuthPassword})),
                    Some(f.lists.devices), Some(f.lists.groups), Some(f.lists.schedules)))
  }

  /** The decoded file after the migrations, and whether it must be saved. */
  function Migrated(h: Scheme, e: Env, f: File, legacy: bool): (File, bool) {
    var a := if legacy then f.(settings := AuthMigrated(f.settings)) else f;
    var n := Normalized(h, e, a);
    (if n.version < CURRENT_VERSION then n.(version := CURRENT_VERSION) else n,
     legacy || NormalizedPassword(h, e, a.settings.basicAuthPassword).1 || n.version < CURRENT_VERSION)
  }

  function Open(h: Scheme, disk: OnDisk, e: Env): Opened {
    match disk
    case Missing =>
      var f := DefaultFile(h, e.defaultSalt);
      if e.saves then Opened(f, Written(f)) else Refused
    case Unreadable => Refused
    case NotJson => Refused
    case Empty => Loaded(h, disk, DefaultFile(h, e.defaultSalt), false, e)
    case Parsed(doc) => Loaded(h, disk, Decoded(h, e.defaultSalt, doc), NeedsAuthMigration(doc), e)
  }

  /** Migrates what was decoded, and saves it if that changed anything worth saving. */
  function Loaded(h: Scheme, disk: OnDisk, f: File, legacy: bool, e: Env): Opened {
    var m := Migrated(h, e, f, legacy);
    if !m.1 then Opened(m.0, disk)
    else if e.saves then Opened(m.0, Written(m.0))
    else Refused
  }

  /** The loops of normalize. */
  method NormalizeDevicesInPlace(ds: array<Device>)
    modifies ds
    ensures ds[..] == NormalizedDevices(old(ds[..]))
  {
    hide NormalizeDevice, NormalizedDevices, DeviceInRange;
    for i := 0 to ds.Length
      invariant forall j :: 0 <= j < i ==> ds[j] == NormalizeDevice(old(ds[j]))
      invariant forall j :: i <= j < ds.Length ==> ds[j] == old(ds[j])
    {
      ds[i] := NormalizeDevice(ds[i]);
    }
    assert forall j :: 0 <= j < ds.Length ==> ds[..][j] == NormalizedDevices(old(ds[..]))[j];
  }

  method NormalizeSchedulesInPlace(ss: array<Schedule>)
    modifies ss
    ensures ss[..] == NormalizedSchedules(old(ss[..]))
  {
    hide NormalizeSchedule, NormalizedSchedules, Canonical, IsCanonical, Trim;
    for i := 0 to ss.Length
      invariant forall j :: 0 <= j < i ==> ss[j] == NormalizeSchedule(old(ss[j]))
      invariant forall j :: i <= j < ss.Length ==> ss[j] == old(ss[j])
    {
      ss[i] := NormalizeSchedule(ss[i]);
    }
    assert forall j :: 0 <= j < ss.Length ==> ss[..][j] == NormalizedSchedules(old(ss[..]))[j];
  }

  // -- main results --

  /** The file names the password itself, so that no default is hashed for it. */
  predicate StoresPassword(disk: OnDisk) {
    disk.Parsed? && disk.doc.settings.Some? && AuthPassword in disk.doc.settings.value.present
  }

  /** Nothing is left for normalize to change but the password. */
  predicate Settled(f: File) {
    && f.version >= CURRENT_VERSION && f.settings.listen != "" && f.settings.wsPath != ""
    && Trim(f.settings.basicAuthUser) != ""
    && NormalizedDevices(f.lists.devices) == f.lists.devices && NormalizedSchedules(f.lists.schedules) == f.lists.schedules
  }

  /** The password is not blank and either a hash or one that cannot be hashed. */
  ghost predicate PasswordSettled(h: Scheme, password: string) {
    Trim(password) != "" && forall salt :: EnsurePasswordHashed(h, password, salt).stored == password && !EnsurePasswordHashed(h, password, salt).changed
  }

  lemma AdminIsTrimmed()
    ensures Trimmed(DEFAULT_AUTH_PASSWORD) && DEFAULT_AUTH_PASSWORD != "" && DEFAULT_AUTH_USER == DEFAULT_AUTH_PASSWORD
    ensures Trim(DEFAULT_AUTH_PASSWORD) == DEFAULT_AUTH_PASSWORD && !IsBcryptHash(DEFAULT_AUTH_PASSWORD)
  {
    hide Trim;
    var s := DEFAULT_AUTH_PASSWORD;
    assert s[0] == 'a' && s[4] == 'n';
    assert Trimmed(s);
    assert s[..4][0] == 'a' && "$2a$"[0] == "$2b$"[0] == "$2y$"[0] == '$';
  }

  lemma HashSettled(h: Scheme, p: string, salt: nat)
    requires Ideal(h) && h.hash(p, salt).Some?
    ensures PasswordSettled(h, h.hash(p, salt).value)
  {
    hide Trim, IsBcryptHash;
    IdealHash(h, p, salt);
  }

  lemma DefaultSettled(h: Scheme, salt: nat)
    requires Ideal(h)
    ensures PasswordSettled(h, DefaultPassword(h, salt))
  {
    hide Trim, IsBcryptHash;
    AdminIsTrimmed();
    if h.hash(DEFAULT_AUTH_PASSWORD, salt).Some? {
      HashSettled(h, DEFAULT_AUTH_PASSWORD, salt);
    } else {
      CannotHash(h, DEFAULT_AUTH_PASSWORD, salt);
    }
  }

  /** A password that cannot be hashed stays plain with every salt. */
  lemma CannotHash(h: Scheme, password: string, salt: nat)
    requires Ideal(h) && Trim(password) != "" && h.hash(Trim(password), salt).None?
    ensures PasswordSettled(h, password)
  {
    hide Trim, IsBcryptHash;
    forall other: nat ensures h.hash(Trim(password), other).None? {
      assert h.hash(Trim(password), salt).Some? <==> h.hash(Trim(password), other).Some?;
    }
  }

  lemma NormalizedPasswordSettled(h: Scheme, e: Env, password: string)
    requires Ideal(h)
    ensures PasswordSettled(h, NormalizedPassword(h, e, password).0)
    ensures PasswordSettled(h, password) ==> NormalizedPassword(h, e, password) == (password, false)
    ensures !NormalizedPassword(h, e, password).1 ==> NormalizedPassword(h, e, password).0 == password
  {
    hide Trim, IsBcryptHash, DefaultPassword;
    TrimmedHash(password);
    if Trim(password) == "" {
      DefaultSettled(h, e.fillSalt);
    } else if !IsBcryptHash(Trim(password)) {
      if h.hash(Trim(password), e.migrateSalt).Some? {
        HashSettled(h, Trim(password), e.migrateSalt);
      } else {
        CannotHash(h, password, e.migrateSalt);
      }
    }
  }

  lemma NormalizedTwice(ds: seq<Device>, ss: seq<Schedule>)
    ensures NormalizedDevices(NormalizedDevices(ds)) == NormalizedDevices(ds)
    ensures NormalizedSchedules(NormalizedSchedules(ss)) == NormalizedSchedules(ss)
  {
    hide NormalizeDevice, NormalizeSchedule, NormalizedDevices, NormalizedSchedules;
  }

  lemma MigratedIsSettled(h: Scheme, e: Env, f: File, legacy: bool)
    requires Ideal(h)
    ensures var m := Migrated(h, e, f, legacy); Settled(m.0) && PasswordSettled(h, m.0.settings.basicAuthPassword)
  {
    hide Trim, IsBcryptHash, NormalizedDevices, NormalizedSchedules, NormalizedPassword, PasswordSettled, Ideal;
    AdminIsTrimmed();
    NormalizedTwice(f.lists.devices, f.lists.schedules);
    NormalizedPasswordSettled(h, e, (if legacy then f.(settings := AuthMigrated(f.settings)) else f).settings.basicAuthPassword);
  }

  lemma SettledStays(h: Scheme, e: Env, f: File)
    requires Ideal(h) && Settled(f) && PasswordSettled(h, f.settings.basicAuthPassword)
    ensures Migrated(h, e, f, false) == (f, false)
  {
    hide Trim, IsBcryptHash, NormalizedDevices, NormalizedSchedules, NormalizedPassword, PasswordSettled, Ideal;
    NormalizedPasswordSettled(h, e, f.settings.basicAuthPassword);
  }

  /** A file that was saved opens as what was in memory, and is not written again. */
  lemma SavedIsFixed(h: Scheme, f: File, e: Env)
    requires Ideal(h) && Settled(f) && PasswordSettled(h, f.settings.basicAuthPassword)
    ensures Open(h, Written(f), e) == Opened(f, Written(f))
  {
    hide Settled, PasswordSettled, Ideal, Migrated, DefaultPassword;
    assert Decoded(h, e.defaultSalt, Written(f).doc) == f;
    SettledStays(h, e, f);
  }

  /** A file that is not saved is completed and keeps its password. */
  lemma UnsavedIff(h: Scheme, e: Env, f: File)
    requires Ideal(h)
    ensures !Migrated(h, e, f, false).1 <==> PasswordSettled(h, f.settings.basicAuthPassword) && f.version >= CURRENT_VERSION
    ensures !Migrated(h, e, f, false).1 ==> Migrated(h, e, f, false).0 == Completed(f)
  {
    hide Trim, IsBcryptHash, NormalizedDevices, NormalizedSchedules, NormalizedPassword, PasswordSettled, Ideal;
    NormalizedPasswordSettled(h, e, f.settings.basicAuthPassword);
  }

  /** Decoding with another salt changes the password only, and that only when the file does not name one. */
  lemma DecodedSalt(h: Scheme, disk: OnDisk, a: nat, b: nat)
    requires disk.Empty? || (disk.Parsed? && !NeedsAuthMigration(disk.doc))
    ensures var f, g := DecodedDisk(h, a, disk), DecodedDisk(h, b, disk);
            if StoresPassword(disk) then f == g
            else
              && g == WithPassword(f, DefaultPassword(h, b)) && f.settings.basicAuthPassword == DefaultPassword(h, a)
  {
    hide DefaultPassword;
  }

  function DecodedDisk(h: Scheme, salt: nat, disk: OnDisk): File
    requires disk.Empty? || disk.Parsed?
  {
    if disk.Empty? then DefaultFile(h, salt) else Decoded(h, salt, disk.doc)
  }

  /** The default password accepts exactly the default candidate, however it was hashed. */
  lemma DefaultAccepts(h: Scheme, salt: nat, c: string)
    requires Ideal(h)
    ensures CheckPassword(h, DefaultPassword(h, salt), c) <==> c == DEFAULT_AUTH_PASSWORD
  {
    hide Trim, IsBcryptHash;
    AdminIsTrimmed();
    if h.hash(DEFAULT_AUTH_PASSWORD, salt).Some? { IdealHash(h, DEFAULT_AUTH_PASSWORD, salt); }
  }

  lemma DefaultFileSettled(h: Scheme, salt: nat)
    requires Ideal(h)
    ensures Settled(DefaultFile(h, salt)) && PasswordSettled(h, DefaultFile(h, salt).settings.basicAuthPassword)
  {
    hide Trim, IsBcryptHash, DefaultPassword, PasswordSettled, Ideal;
    AdminIsTrimmed();
    DefaultSettled(h, salt);
  }

  /** What a second opening of an unsaved file does. */
  lemma UnsavedTwice(h: Scheme, disk: OnDisk, e: Env, e2: Env)
    requires Ideal(h) && (disk.Empty? || (disk.Parsed? && !NeedsAuthMigration(disk.doc)))
    requires !Migrated(h, e, DecodedDisk(h, e.defaultSalt, disk), false).1
    ensures var f, g := DecodedDisk(h, e.defaultSalt, disk), DecodedDisk(h, e2.defaultSalt, disk);
            && Migrated(h, e2, g, false) == (Completed(g), false) && Migrated(h, e, f, false).0 == Completed(f)
            && Completed(g) == (if StoresPassword(disk) then Completed(f) else WithPassword(Completed(f), DefaultPassword(h, e2.defaultSalt)))
            && (!StoresPassword(disk) ==> Completed(f).settings.basicAuthPassword == DefaultPassword(h, e.defaultSalt))
  {
    hide DefaultPassword, PasswordSettled, Ideal, Migrated, DecodedDisk, StoresPassword, NormalizedDevices, NormalizedSchedules, Trim;
    var f, g := DecodedDisk(h, e.defaultSalt, disk), DecodedDisk(h, e2.defaultSalt, disk);
    DecodedSalt(h, disk, e.defaultSalt, e2.defaultSalt);
    UnsavedIff(h, e, f);
    DefaultSettled(h, e2.defaultSalt);
    UnsavedIff(h, e2, g);
  }

  lemma UnsavedCandidates(h: Scheme, f: File, a: nat, b: nat, c: string)
    requires Ideal(h) && f.settings.basicAuthPassword == DefaultPassword(h, a)
    ensures CheckPassword(h, WithPassword(f, DefaultPassword(h, b)).settings.basicAuthPassword, c)
            <==> CheckPassword(h, f.settings.basicAuthPassword, c)
    ensures WithPassword(f, DefaultPassword(h, b)) == f <==> DefaultPassword(h, a) == DefaultPassword(h, b)
  {
    hide CheckPassword, DefaultPassword, Ideal;
    DefaultAccepts(h, a, c);
    DefaultAccepts(h, b, c);
  }

  /** Opening the result of an opening: the file stays, the same candidates are accepted, and the state in memory is
      the same exactly when the file names its password or the default is hashed alike. */
  ghost predicate Stable(h: Scheme, once: Opened, e: Env, e2: Env)
    requires once.Opened?
  {
    var twice := Open(h, once.disk, e2);
    && twice.Opened? && twice.disk == once.disk
    && (forall c :: CheckPassword(h, twice.file.settings.basicAuthPassword, c)
                    <==> CheckPassword(h, once.file.settings.basicAuthPassword, c))
    && (twice.file == once.file <==>
          StoresPassword(once.disk) || DefaultPassword(h, e.defaultSalt) == DefaultPassword(h, e2.defaultSalt))
  }

  lemma SavedIsStable(h: Scheme, f: File, e: Env, e2: Env)
    requires Ideal(h) && Settled(f) && PasswordSettled(h, f.settings.basicAuthPassword)
    ensures Stable(h, Opened(f, Written(f)), e, e2)
  {
    hide Open, Settled, PasswordSettled, CheckPassword, DefaultPassword, Ideal;
    SavedIsFixed(h, f, e2);
  }

  lemma UnsavedIsStable(h: Scheme, disk: OnDisk, e: Env, e2: Env)
    requires Ideal(h) && (disk.Empty? || (disk.Parsed? && !NeedsAuthMigration(disk.doc)))
    requires !Migrated(h, e, DecodedDisk(h, e.defaultSalt, disk), false).1
    ensures Stable(h, Opened(Migrated(h, e, DecodedDisk(h, e.defaultSalt, disk), false).0, disk), e, e2)
  {
    hide Migrated, CheckPassword, DefaultPassword, Ideal, Completed, StoresPassword, NeedsAuthMigration, Decoded, DefaultFile;
    UnsavedTwice(h, disk, e, e2);
    var f := Completed(DecodedDisk(h, e.defaultSalt, disk));
    if !StoresPassword(disk) {
      forall c ensures CheckPassword(h, Open(h, disk, e2).file.settings.basicAuthPassword, c) <==> CheckPassword(h, f.settings.basicAuthPassword, c) {
        UnsavedCandidates(h, f, e.defaultSalt, e2.defaultSalt, c);
      }
      UnsavedCandidates(h, f, e.defaultSalt, e2.defaultSalt, "");
    }
  }

  /** A second opening writes nothing, accepts the same passwords, and gives the same state unless the file has no
      password of its own: then the default is hashed anew each time. */
  lemma OpenTwice(h: Scheme, disk: OnDisk, e: Env, e2: Env)
    requires Ideal(h) && Open(h, disk, e).Opened?
    ensures Stable(h, Open(h, disk, e), e, e2)
  {
    hide Stable, Settled, PasswordSettled, Ideal, Migrated, DefaultPassword, NeedsAuthMigration, Decoded, DefaultFile, Written;
    if disk.Missing? {
      DefaultFileSettled(h, e.defaultSalt);
      SavedIsStable(h, DefaultFile(h, e.defaultSalt), e, e2);
    } else {
      var f, legacy := DecodedDisk(h, e.defaultSalt, disk), disk.Parsed? && NeedsAuthMigration(disk.doc);
      assert Open(h, disk, e) == Loaded(h, disk, f, legacy, e);
      if Migrated(h, e, f, legacy).1 {
        MigratedIsSettled(h, e, f, legacy);
        SavedIsStable(h, Migrated(h, e, f, legacy).0, e, e2);
      } else {
        LegacyIsSaved(h, e, f);
        UnsavedIsStable(h, disk, e, e2);
      }
    }
  }

  lemma LegacyIsSaved(h: Scheme, e: Env, f: File)
    ensures Migrated(h, e, f, true).1
  {
  }

  lemma NormalizedAccepts(h: Scheme, e: Env, password: string, c: string)
    requires Ideal(h)
    ensures CheckPassword(h, NormalizedPassword(h, e, password).0, c)
            <==> if Trim(password) == "" then c == DEFAULT_AUTH_PASSWORD else CheckPassword(h, password, c)
  {
    hide Trim, IsBcryptHash, DefaultPassword, CheckPassword, EnsurePasswordHashed, Ideal;
    if Trim(password) == "" {
      DefaultAccepts(h, e.fillSalt, c);
    } else {
      MigrationKeepsCandidates(h, password, e.migrateSalt, c);
    }
  }

  lemma PlainDefaultAccepts(h: Scheme, c: string)
    ensures CheckPassword(h, DEFAULT_AUTH_PASSWORD, c) <==> c == DEFAULT_AUTH_PASSWORD
  {
    hide Trim, IsBcryptHash;
    AdminIsTrimmed();
  }

  lemma MigratedAccepts(h: Scheme, e: Env, f: File, legacy: bool, c: string)
    requires Ideal(h)
    ensures CheckPassword(h, Migrated(h, e, f, legacy).0.settings.basicAuthPassword, c)
            <==> if Trim(f.settings.basicAuthPassword) == "" then c == DEFAULT_AUTH_PASSWORD
                 else CheckPassword(h, f.settings.basicAuthPassword, c)
  {
    hide Trim, CheckPassword, Ideal, NormalizedPassword, NormalizedDevices, NormalizedSchedules;
    NormalizedAccepts(h, e, f.settings.basicAuthPassword, c);
    NormalizedAccepts(h, e, DEFAULT_AUTH_PASSWORD, c);
    AdminIsTrimmed();
    PlainDefaultAccepts(h, c);
  }

  lemma DecodedPassword(h: Scheme, salt: nat, doc: Document)
    ensures Decoded(h, salt, doc).settings.basicAuthPassword ==
            if StoresPassword(Parsed(doc)) then doc.settings.value.values.basicAuthPassword else DefaultPassword(h, salt)
  {
    hide DefaultPassword;
  }

  /** Opening never locks anyone out or in: a password the file names is accepted afterwards as before, and where it
      names none or a blank one, the default is. */
  lemma OpenKeepsPassword(h: Scheme, doc: Document, e: Env, c: string)
    requires Ideal(h) && Open(h, Parsed(doc), e).Opened?
    ensures var p := if StoresPassword(Parsed(doc)) then doc.settings.value.values.basicAuthPassword else "";
            CheckPassword(h, Open(h, Parsed(doc), e).file.settings.basicAuthPassword, c)
            <==> if Trim(p) == "" then c == DEFAULT_AUTH_PASSWORD else CheckPassword(h, p, c)
  {
    hide Trim, CheckPassword, Ideal, Migrated, Decoded, DefaultPassword, Written, NeedsAuthMigration;
    MigratedAccepts(h, e, Decoded(h, e.defaultSalt, doc), NeedsAuthMigration(doc), c);
    DecodedPassword(h, e.defaultSalt, doc);
    DefaultAccepts(h, e.defaultSalt, c);
    TrimOfNothing();
  }

  lemma TrimOfNothing()
    ensures Trim("") == ""
  {
  }

  // -- every setting of an opened file --

  predicate Names(doc: Document, k: Key) {
    doc.settings.Some? && k in doc.settings.value.present
  }

  function Or(given: string, default: string): string {
    if given == "" then default else given
  }

  function NameOr(user: string): string {
    if Blank(user) then "admin" else user
  }

  lemma AdminOr(user: string)
    ensures NameOr(user) == if Trim(user) == "" then DEFAULT_AUTH_USER else user
    ensures Trim(NameOr(user)) != ""
  {
    hide Trim, Blank;
    TrimBlank(user);
    AdminIsTrimmed();
  }

  /** All settings but the password. */
  predicate SameButPassword(a: Settings, b: Settings) {
    a.(basicAuthPassword := b.basicAuthPassword) == b
  }

  lemma MigratedFields(h: Scheme, e: Env, f: File, legacy: bool)
    ensures var n, s := Migrated(h, e, f, legacy).0, f.settings;
            && SameButPassword(n.settings, s.(listen := Or(s.listen, ":8080"), wsPath := Or(s.wsPath, "/api/ws/client"),
                                              basicAuthEnable := legacy || s.basicAuthEnable, basicAuthUser := NameOr(s.basicAuthUser)))
            && n.version == (if f.version > 2 then f.version else 2)
            && n.lists == f.lists.(devices := NormalizedDevices(f.lists.devices), schedules := NormalizedSchedules(f.lists.schedules))
  {
    hide Trim, Blank, NormalizedPassword, NormalizedDevices, NormalizedSchedules, NameOr;
    AdminOr(f.settings.basicAuthUser);
  }

  lemma DecodedFields(h: Scheme, salt: nat, doc: Document)
    ensures var f, raw := Decoded(h, salt, doc), if doc.settings.Some? then doc.settings.value.values else NO_SETTINGS;
            && SameButPassword(f.settings, raw.(
                 listen := if Names(doc, Listen) then raw.listen else ":8080",
                 wsPath := if Names(doc, WsPath) then raw.wsPath else "/api/ws/client",
                 basicAuthEnable := if Names(doc, AuthEnable) then raw.basicAuthEnable else true,
                 basicAuthUser := if Names(doc, AuthUser) then raw.basicAuthUser else "admin"))
            && f.version == (if doc.version.Some? then doc.version.value else 2)
            && f.lists == Lists(if doc.devices.Some? then doc.devices.value else [], if doc.groups.Some? then doc.groups.value else [],
                                if doc.schedules.Some? then doc.schedules.value else [])
  {
    hide DefaultPassword;
  }

  /** What an opened file has, field by field: what the document names where it names it, the defaults otherwise; a legacy
      document, which does not name the switch, ends with authentication on. The password is that of OpenKeepsPassword. */
  lemma OpenedFields(h: Scheme, doc: Document, e: Env)
    requires Open(h, Parsed(doc), e).Opened?
    ensures var f := Open(h, Parsed(doc), e).file;
            var raw := if doc.settings.Some? then doc.settings.value.values else NO_SETTINGS;
            && SameButPassword(f.settings, raw.(
                 listen := Or(if Names(doc, Listen) then raw.listen else ":8080", ":8080"),
                 wsPath := Or(if Names(doc, WsPath) then raw.wsPath else "/api/ws/client", "/api/ws/client"),
                 basicAuthEnable := if Names(doc, AuthEnable) then raw.basicAuthEnable else true,
                 basicAuthUser := NameOr(if Names(doc, AuthUser) then raw.basicAuthUser else "admin")))
            && f.version == (if doc.version.Some? && doc.version.value > 2 then doc.version.value else 2)
            && f.lists == Lists(NormalizedDevices(if doc.devices.Some? then doc.devices.value else []),
                                if doc.groups.Some? then doc.groups.value else [],
                                NormalizedSchedules(if doc.schedules.Some? then doc.schedules.value else []))
  {
    hide Decoded, Migrated, NormalizedDevices, NormalizedSchedules, Written, NameOr, Or;
    MigratedFields(h, e, Decoded(h, e.defaultSalt, doc), NeedsAuthMigration(doc));
    DecodedFields(h, e.defaultSalt, doc);
  }

  /** Without a document, missing or empty, the defaults. */
  lemma OpenedDefaults(h: Scheme, disk: OnDisk, e: Env)
    requires (disk.Missing? || disk.Empty?) && Open(h, disk, e).Opened?
    ensures var f := Open(h, disk, e).file;
            && SameButPassword(f.settings, NO_SETTINGS.(listen := ":8080", wsPath := "/api/ws/client", basicAuthEnable := true, basicAuthUser := "admin"))
            && f.version == 2 && f.lists == Lists([], [], [])
  {
    hide Migrated, DefaultPassword, Written, Trim, Blank;
    MigratedFields(h, e, DefaultFile(h, e.defaultSalt), false);
    AdminIsTrimmed();
    AdminOr("admin");
    TrimBlank("admin");
    assert NormalizedDevices([]) == [] && NormalizedSchedules([]) == [];
  }
}
