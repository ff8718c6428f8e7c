/** db_utils.py: the database connection's state as one object, the audit
    log writer, the additive schema migration, the user-administration rules
    (role validation, the last-active-admin guard, the self-deactivation guard,
    retirement of the default `admin` account), and the table selection and
    filtering of the data export. */
module DbUtils {
  import opened Wrappers
  import opened Schema
  import opened Timestamps
  import Text

  // ---------------------------------------------------------------- audit log

  /** `json.dumps(x) if x else None`: a missing or empty snapshot is stored
      as NULL, any other is kept. */
  function Snapshot(values: Option<map<string, Value>>): (r: Option<map<string, Value>>)
    ensures r.None? <==> (values.None? || values.value == map[])
    ensures r.Some? ==> r == values
  {
    if values.Some? && values.value != map[] then values else None
  }

  // ---------------------------------------------------------------- users

  /** `COALESCE(is_active, 1)`. */
  function Coalesce1(x: Option<int>): int {
    if x.Some? then x.value else 1
  }

  /** A user count_admins counts: role 'admin' and, when the column exists,
      `COALESCE(is_active,1)=1`. */
  predicate CountedAdmin(u: User, hasIsActive: bool) {
    u.role == Some("admin") && (hasIsActive ==> Coalesce1(u.isActive) == 1)
  }

  function CountedAdmins(users: map<string, User>, hasIsActive: bool): (r: set<string>)
    ensures forall n :: n in r <==> n in users && CountedAdmin(users[n], hasIsActive)
  {
    set n | n in users && CountedAdmin(users[n], hasIsActive)
  }

  /** count_admins: the number of active administrators. */
  function AdminCount(users: map<string, User>, hasIsActive: bool): (n: nat)
    ensures n <= |users|
    ensures n == 0 <==> forall u :: u in users ==> !CountedAdmin(users[u], hasIsActive)
  {
    CountAdminsBounds(users, hasIsActive);
    |CountedAdmins(users, hasIsActive)|
  }

  lemma CountAdminsBounds(users: map<string, User>, hasIsActive: bool)
    ensures |CountedAdmins(users, hasIsActive)| <= |users|
    ensures |CountedAdmins(users, hasIsActive)| == 0 <==> forall u :: u in users ==> !CountedAdmin(users[u], hasIsActive)
  {
    var s := CountedAdmins(users, hasIsActive);
    CardinalityOfSubset(s, users.Keys);
    if forall u :: u in users ==> !CountedAdmin(users[u], hasIsActive) {
      assert s == {};
    } else {
      var u :| u in users && CountedAdmin(users[u], hasIsActive);
      assert u in s;
    }
  }

  /** A subset is no larger than its superset. */
  lemma CardinalityOfSubset<T>(a: set<T>, b: set<T>)
    requires a <= b
    ensures |a| <= |b|
  {
    assert b == a + (b - a);
  }

  /** Changing one user's row changes the admin count by at most one, in the
      direction of that user's own status. */
  lemma {:induction false} CountAdminsUpdate(users: map<string, User>, hasIsActive: bool, name: string, u: User)
    requires name in users
    ensures var before := AdminCount(users, hasIsActive);
            var after := AdminCount(users[name := u], hasIsActive);
            && (CountedAdmin(users[name], hasIsActive) && !CountedAdmin(u, hasIsActive) ==> after == before - 1)
            && (!CountedAdmin(users[name], hasIsActive) && CountedAdmin(u, hasIsActive) ==> after == before + 1)
            && (CountedAdmin(users[name], hasIsActive) == CountedAdmin(u, hasIsActive) ==> after == before)
  {
    var s := CountedAdmins(users, hasIsActive);
    var s' := CountedAdmins(users[name := u], hasIsActive);
    OthersUnchanged(users, hasIsActive, name, u);
    CardinalityWithout(s, name);
    CardinalityWithout(s', name);
  }

  /** Changing one user's row does not change who else is counted. */
  lemma OthersUnchanged(users: map<string, User>, hasIsActive: bool, name: string, u: User)
    ensures CountedAdmins(users[name := u], hasIsActive) - {name} == CountedAdmins(users, hasIsActive) - {name}
  {
  }

  /** Removing an element lowers the size by one exactly when it was there. */
  lemma CardinalityWithout<T>(s: set<T>, x: T)
    ensures |s| == |s - {x}| + (if x in s then 1 else 0)
  {
    if x in s {
      assert s == (s - {x}) + {x};
    } else {
      assert s == s - {x};
    }
  }

  /** Adding a user who is not yet present raises the count by one exactly
      when the new row is a counted admin. */
  lemma {:induction false} CountAdminsInsert(users: map<string, User>, hasIsActive: bool, name: string, u: User)
    requires name !in users
    ensures AdminCount(users[name := u], hasIsActive)
            == AdminCount(users, hasIsActive) + (if CountedAdmin(u, hasIsActive) then 1 else 0)
  {
    var s := CountedAdmins(users, hasIsActive);
    var s' := CountedAdmins(users[name := u], hasIsActive);
    OthersUnchanged(users, hasIsActive, name, u);
    CardinalityWithout(s, name);
    CardinalityWithout(s', name);
  }

  /** The default account create_user retires once another admin exists. */
  const DefaultAdmin: string := "admin"

  predicate ValidRole(role: string) {
    role == "user" || role == "admin"
  }

  /** `UPDATE users SET is_active = 0 WHERE username = 'admin' AND
      COALESCE(is_active,1)=1`. */
  function RetireDefaultAdmin(users: map<string, User>): (r: map<string, User>)
    ensures r.Keys == users.Keys
    ensures forall n :: n in users && n != DefaultAdmin ==> r[n] == users[n]
    ensures DefaultAdmin in users ==> Coalesce1(r[DefaultAdmin].isActive) != 1
  {
    if DefaultAdmin in users && Coalesce1(users[DefaultAdmin].isActive) == 1
    then users[DefaultAdmin := users[DefaultAdmin].(isActive := Some(0))]
    else users
  }

  // ---------------------------------------------------------------- schema migration

  /** The parts of the schema migrate_schema inspects and changes. */
  datatype SchemaState = SchemaState(partsColumns: set<string>, usersHasIsActive: bool, users: map<string, User>)

  /** migrate_schema: drop `deposit` and `balance` from parts if present; add
      `users.is_active INTEGER DEFAULT 1` if missing, which gives every
      existing user the value 1. */
  function Migrate(s: SchemaState): (r: SchemaState)
    ensures "deposit" !in r.partsColumns && "balance" !in r.partsColumns
    ensures r.usersHasIsActive
    ensures r.partsColumns <= s.partsColumns
    ensures forall c :: c in s.partsColumns && c != "deposit" && c != "balance" ==> c in r.partsColumns
    ensures r.users.Keys == s.users.Keys
    ensures s.usersHasIsActive ==> r.users == s.users
    ensures !s.usersHasIsActive ==> forall n :: n in r.users ==> r.users[n] == s.users[n].(isActive := Some(1))
  {
    var cols := s.partsColumns - {"deposit", "balance"};
    if s.usersHasIsActive then SchemaState(cols, true, s.users)
    else SchemaState(cols, true, map n | n in s.users :: s.users[n].(isActive := Some(1)))
  }

  /** Running migrate_schema again changes nothing. */
  lemma MigrateIdempotent(s: SchemaState)
    ensures Migrate(Migrate(s)) == Migrate(s)
  {
    var once := Migrate(s);
    var twice := Migrate(once);
    assert twice.partsColumns == once.partsColumns;
  }

  /** Migrating never deactivates anybody: the active-admin count on the
      migrated schema is at least the count before. */
  lemma MigrateKeepsAdmins(s: SchemaState)
    ensures CountedAdmins(s.users, s.usersHasIsActive) <= CountedAdmins(Migrate(s).users, true)
  {
  }

  // ---------------------------------------------------------------- export

  /** pandas `astype(str)` on a nullable text column: NULL prints as "None". */
  function Str(s: Option<string>): (r: string)
    ensures s.Some? ==> r == s.value
  {
    if s.Some? then s.value else "None"
  }

  /** The optional keys of the export filter dictionary. */
  datatype ExportFilters = ExportFilters(selected: Option<seq<string>>, clientPhone: Option<string>, vinNumber: Option<string>)

  const NoFilters := ExportFilters(None, None, None)

  /** One loaded table, as export_filtered_data reads it. */
  datatype Frame =
    | ClientsFrame(clients: map<string, Client>)
    | VinsFrame(vins: map<int, VinRow>)
    | PartsFrame(parts: map<int, Part>)
    | SuppliersFrame(suppliers: map<int, Supplier>)

  predicate KeepVin(v: VinRow, f: ExportFilters) {
    (!Text.Truthy(f.clientPhone) || Str(v.clientPhone) == f.clientPhone.value)
    && (!Text.Truthy(f.vinNumber) || Str(v.vinNumber) == f.vinNumber.value)
  }

  predicate KeepPart(p: Part, f: ExportFilters) {
    (!Text.Truthy(f.clientPhone) || Str(p.clientPhone) == f.clientPhone.value)
    && (!Text.Truthy(f.vinNumber) || Str(p.vinNumber) == f.vinNumber.value)
  }

  predicate SameKind(a: Frame, b: Frame) {
    (a.ClientsFrame? && b.ClientsFrame? && SubMap(b.clients, a.clients))
    || (a.VinsFrame? && b.VinsFrame? && SubMap(b.vins, a.vins))
    || (a.PartsFrame? && b.PartsFrame? && SubMap(b.parts, a.parts))
    || (a.SuppliersFrame? && b.SuppliersFrame? && b == a)
  }

  /** _apply_basic_filters: clients by phone; vins and parts by client phone
      and VIN number; every other table untouched.  The result is a subset of
      the input of the same table, and no filter leaves it whole. */
  function ApplyBasicFilters(frame: Frame, filters: ExportFilters): (r: Frame)
    ensures SameKind(frame, r)
    ensures filters.clientPhone == None && filters.vinNumber == None ==> r == frame
    ensures r.ClientsFrame? ==> forall k :: k in frame.clients ==>
              (k in r.clients <==> !Text.Truthy(filters.clientPhone) || k == filters.clientPhone.value)
    ensures r.VinsFrame? ==> forall k :: k in frame.vins ==> (k in r.vins <==> KeepVin(frame.vins[k], filters))
    ensures r.PartsFrame? ==> forall k :: k in frame.parts ==> (k in r.parts <==> KeepPart(frame.parts[k], filters))
  {
    match frame
    case ClientsFrame(c) =>
      if Text.Truthy(filters.clientPhone)
      then ClientsFrame(map k | k in c && k == filters.clientPhone.value :: c[k])
      else frame
    case VinsFrame(v) => VinsFrame(map k | k in v && KeepVin(v[k], filters) :: v[k])
    case PartsFrame(p) => PartsFrame(map k | k in p && KeepPart(p[k], filters) :: p[k])
    case SuppliersFrame(_) => frame
  }

  const KnownTables: seq<string> := ["clients", "vins", "parts", "part_suppliers"]

  /** `(filters or {}).get('include') or [all four]`, then only the known
      table names, in the order given. */
  function IncludedTables(filters: ExportFilters): (r: seq<string>)
    ensures forall i :: 0 <= i < |r| ==> r[i] in KnownTables
    ensures filters.selected.None? || filters.selected.value == [] ==> r == KnownTables
    ensures filters.selected.Some? && filters.selected.value != [] ==>
              forall x :: x in r <==> x in filters.selected.value && x in KnownTables
  {
    var asked := if filters.selected.Some? && filters.selected.value != [] then filters.selected.value else KnownTables;
    KeepKnown(asked)
  }

  function KeepKnown(names: seq<string>): (r: seq<string>)
    ensures forall x :: x in r <==> x in names && x in KnownTables
    ensures (forall i :: 0 <= i < |names| ==> names[i] in KnownTables) ==> r == names
  {
    if names == [] then []
    else (if names[0] in KnownTables then [names[0]] else []) + KeepKnown(names[1..])
  }

  /** The tables the export writes; a table not selected is absent. */
  datatype ExportData = ExportData(
    clients: Option<map<string, Client>>, vins: Option<map<int, VinRow>>,
    parts: Option<map<int, Part>>, suppliers: Option<map<int, Supplier>>)

  function FilteredParts(t: Tables, filters: ExportFilters): (r: map<int, Part>)
    ensures SubMap(r, t.parts)
    ensures forall k :: k in t.parts ==> (k in r <==> KeepPart(t.parts[k], filters))
  {
    ApplyBasicFilters(PartsFrame(t.parts), filters).parts
  }

  /** The table selection and transitive filtering of export_filtered_data:
      each known table that is selected is present, filtered; part_suppliers
      holds exactly the rows whose part survived the parts filter. */
  function ExportFilteredData(t: Tables, filters: Option<ExportFilters>): (r: ExportData)
    ensures var f := filters.GetOr(NoFilters);
            var inc := IncludedTables(f);
            && (r.clients.Some? <==> "clients" in inc)
            && (r.vins.Some? <==> "vins" in inc)
            && (r.parts.Some? <==> "parts" in inc)
            && (r.suppliers.Some? <==> "part_suppliers" in inc)
            && (r.parts.Some? ==> r.parts.value == FilteredParts(t, f))
            && (r.suppliers.Some? ==>
                  (&& SubMap(r.suppliers.value, t.suppliers)
                   && forall k :: k in t.suppliers ==>
                        (k in r.suppliers.value <==> t.suppliers[k].partId in FilteredParts(t, f))))
  {
    var f := filters.GetOr(NoFilters);
    var inc := IncludedTables(f);
    var parts := FilteredParts(t, f);
    ExportData(
      if "clients" in inc then Some(ApplyBasicFilters(ClientsFrame(t.clients), f).clients) else None,
      if "vins" in inc then Some(ApplyBasicFilters(VinsFrame(t.vins), f).vins) else None,
      if "parts" in inc then Some(parts) else None,
      if "part_suppliers" in inc then
        Some(if parts == map[] then map[]
             else map k | k in t.suppliers && t.suppliers[k].partId in parts :: t.suppliers[k])
      else None)
  }

  /** With an integral database, the exported suppliers' parts are all
      exported too whenever parts are selected. */
  lemma ExportClosed(t: Tables, filters: Option<ExportFilters>)
    requires Integrity(t)
    ensures var r := ExportFilteredData(t, filters);
            r.parts.Some? && r.suppliers.Some? ==>
              forall k :: k in r.suppliers.value ==> r.suppliers.value[k].partId in r.parts.value
  {
  }

  // ---------------------------------------------------------------- the database

  /** The users table after create_user: the new account, active where the
      column exists, and for a new admin other than `admin` the default
      account retired. */
  function UsersAfterCreate(users: map<string, User>, hasIsActive: bool, username: string, role: string,
                            passwordHash: string, now: DateTime): (r: map<string, User>)
    requires ValidDateTime(now)
    ensures username in r && r[username].passwordHash == passwordHash && r[username].role == Some(role)
    ensures r.Keys == users.Keys + {username}
  {
    var added := users[username := User(passwordHash, Some(role), Some(Format(now)), None, if hasIsActive then Some(1) else None)];
    if role == "admin" && username != DefaultAdmin && hasIsActive then RetireDefaultAdmin(added) else added
  }

  /** The constraints SQLite enforces on the four data tables (foreign keys
      are switched on for every connection, the VIN key is unique) and
      rowids from 1 upwards. */
  ghost predicate ValidTables(t: Tables) {
    Integrity(t) && UniqueVins(t.vins)
    && (forall k :: k in t.vins ==> k >= 1)
    && (forall k :: k in t.parts ==> k >= 1)
    && (forall k :: k in t.suppliers ==> k >= 1)
  }

  /** The state one SQLite file holds: the four entity tables, users, the
      activity log, and which optional columns the schema has. */
  class Database {
    var clients: map<string, Client>
    var vins: map<int, VinRow>
    var parts: map<int, Part>
    var suppliers: map<int, Supplier>
    var users: map<string, User>
    var log: seq<LogEntry>
    var partsColumns: set<string>
    var usersHasIsActive: bool

    function Data(): Tables
      reads this`clients, this`vins, this`parts, this`suppliers
    {
      Tables(clients, vins, parts, suppliers)
    }

    function Schema(): SchemaState
      reads this
    {
      SchemaState(partsColumns, usersHasIsActive, users)
    }

    /** The database invariant: the data tables satisfy ValidTables, and
        no is_active value is stored while the column is absent. */
    ghost predicate Valid()
      reads this
    {
      TablesValid() && UsersValid()
    }

    /** The part of Valid about the four data tables. */
    ghost predicate TablesValid()
      reads this`clients, this`vins, this`parts, this`suppliers
    {
      ValidTables(Data())
    }

    /** The part of Valid about the users table. */
    ghost predicate UsersValid()
      reads this`usersHasIsActive, this`users
    {
      !usersHasIsActive ==> forall n :: n in users ==> users[n].isActive.None?
    }

    function CountAdmins(): (n: nat)
      reads this
      ensures n <= |users|
    {
      AdminCount(users, usersHasIsActive)
    }

    /** create_tables on a fresh file: empty tables and the default `admin`
        account with role admin. */
    constructor (adminHash: string, now: DateTime)
      requires ValidDateTime(now)
      ensures Valid()
      ensures Data() == Tables(map[], map[], map[], map[]) && log == []
      ensures users == map[DefaultAdmin := User(adminHash, Some("admin"), Some(Format(now)), None, Some(1))]
      ensures usersHasIsActive && CountAdmins() == 1
    {
      clients, vins, parts, suppliers := map[], map[], map[], map[];
      users := map[DefaultAdmin := User(adminHash, Some("admin"), Some(Format(now)), None, Some(1))];
      log := [];
      partsColumns := {"id", "vin_number", "client_phone", "part_name", "part_number", "quantity",
                       "notes", "date_added", "created_date", "last_updated", "created_by", "last_updated_by"};
      usersHasIsActive := true;
      new;
      assert CountedAdmins(users, true) == {DefaultAdmin};
    }

    /** log_activity: one entry appended, the earlier ones untouched. */
    method LogActivity(username: Option<string>, action: string, tableName: Option<string>, recordId: Option<string>,
                       oldValues: Option<map<string, Value>>, newValues: Option<map<string, Value>>, now: DateTime)
      requires ValidDateTime(now)
      modifies this`log
      ensures log == old(log) + [LogEntry(Format(now), username, action, tableName, recordId, Snapshot(oldValues), Snapshot(newValues))]
      ensures |log| == |old(log)| + 1 && log[..|old(log)|] == old(log)
    {
      log := log + [LogEntry(Format(now), username, action, tableName, recordId, Snapshot(oldValues), Snapshot(newValues))];
    }

    /** migrate_schema. */
    method MigrateSchema()
      requires Valid()
      modifies this`partsColumns, this`usersHasIsActive, this`users
      ensures Valid()
      ensures Schema() == Migrate(old(Schema()))
    {
      var m := Migrate(Schema());
      partsColumns, usersHasIsActive, users := m.partsColumns, m.usersHasIsActive, m.users;
    }

    /** create_user: the new account is active; a new admin other than
        `admin` retires the default account. */
    method CreateUser(username: string, password: string, role: string, actor: Option<string>,
                      passwordHash: string, now: DateTime)
      returns (ok: bool, message: string)
      requires Valid() && ValidDateTime(now)
      modifies this`users, this`log
      ensures Valid()
      ensures ok <==> username != "" && password != "" && ValidRole(role) && username !in old(users)
      ensures username == "" || password == "" ==> message == "Username and password are required"
      ensures username != "" && password != "" && !ValidRole(role) ==> message == "Invalid role"
      ensures username != "" && password != "" && ValidRole(role) && username in old(users) ==> message == "Username already exists"
      ensures !ok ==> users == old(users) && log == old(log)
      ensures ok ==> message == "User created"
      ensures ok ==> users == UsersAfterCreate(old(users), usersHasIsActive, username, role, passwordHash, now)
      ensures ok ==> log == old(log) + [LogEntry(Format(now), actor, "create_user", Some("users"), Some(username), None, None)]
      ensures ok && usersHasIsActive ==> Coalesce1(users[username].isActive) == 1
      ensures ok && role == "admin" ==> CountAdmins() >= 1
      ensures old(CountAdmins()) >= 1 ==> CountAdmins() >= 1
    {
      if username == "" || password == "" {
        return false, "Username and password are required";
      }
      if !ValidRole(role) {
        return false, "Invalid role";
      }
      if username in users {
        return false, "Username already exists";
      }
      InsertUser(username, role, actor, passwordHash, now);
      return true, "User created";
    }

    /** The INSERT of create_user and, for a new admin, the UPDATE that
        retires the default account. */
    method InsertUser(username: string, role: string, actor: Option<string>, passwordHash: string, now: DateTime)
      requires Valid() && ValidDateTime(now) && username !in users
      modifies this`users, this`log
      ensures Valid()
      ensures users == UsersAfterCreate(old(users), usersHasIsActive, username, role, passwordHash, now)
      ensures log == old(log) + [LogEntry(Format(now), actor, "create_user", Some("users"), Some(username), None, None)]
      ensures usersHasIsActive ==> Coalesce1(users[username].isActive) == 1
      ensures role == "admin" ==> CountAdmins() >= 1
      ensures old(CountAdmins()) >= 1 ==> CountAdmins() >= 1
    {
      var newUser := User(passwordHash, Some(role), Some(Format(now)), None, if usersHasIsActive then Some(1) else None);
      AddUserRow(username, newUser, actor, now);
      if role == "admin" && username != DefaultAdmin && usersHasIsActive {
        RetireDefault(username);
      }
    }

    /** The INSERT INTO users of create_user and its log entry. */
    method AddUserRow(username: string, u: User, actor: Option<string>, now: DateTime)
      requires Valid() && ValidDateTime(now) && username !in users
      requires !usersHasIsActive ==> u.isActive.None?
      modifies this`users, this`log
      ensures Valid()
      ensures users == old(users)[username := u]
      ensures log == old(log) + [LogEntry(Format(now), actor, "create_user", Some("users"), Some(username), None, None)]
      ensures CountAdmins() == old(CountAdmins()) + (if CountedAdmin(u, usersHasIsActive) then 1 else 0)
    {
      CountAdminsInsert(users, usersHasIsActive, username, u);
      users := users[username := u];
      LogActivity(actor, "create_user", Some("users"), Some(username), None, None, now);
    }

    /** `UPDATE users SET is_active = 0 WHERE username = 'admin' ...`, run
        once the counted admin `keeper` exists. */
    method RetireDefault(keeper: string)
      requires Valid() && usersHasIsActive
      requires keeper != DefaultAdmin && keeper in users && CountedAdmin(users[keeper], usersHasIsActive)
      modifies this`users
      ensures Valid()
      ensures users == RetireDefaultAdmin(old(users))
      ensures CountAdmins() >= 1
    {
      if DefaultAdmin in users {
        CountAdminsUpdate(users, usersHasIsActive, DefaultAdmin, RetireDefaultAdmin(users)[DefaultAdmin]);
      }
      users := RetireDefaultAdmin(users);
      assert keeper in CountedAdmins(users, usersHasIsActive);
    }

    /** An UPDATE of one users row and its log entry; the admin count moves
        with that row's own status. */
    method ReplaceUserRow(username: string, u: User, action: string, actor: Option<string>, now: DateTime)
      requires Valid() && ValidDateTime(now) && username in users
      requires !usersHasIsActive ==> u.isActive.None?
      modifies this`users, this`log
      ensures Valid()
      ensures users == old(users)[username := u]
      ensures log == old(log) + [LogEntry(Format(now), actor, action, Some("users"), Some(username), None, None)]
      ensures CountedAdmin(old(users)[username], usersHasIsActive) && !CountedAdmin(u, usersHasIsActive) ==>
                CountAdmins() == old(CountAdmins()) - 1
      ensures !CountedAdmin(old(users)[username], usersHasIsActive) && CountedAdmin(u, usersHasIsActive) ==>
                CountAdmins() == old(CountAdmins()) + 1
      ensures CountedAdmin(old(users)[username], usersHasIsActive) == CountedAdmin(u, usersHasIsActive) ==>
                CountAdmins() == old(CountAdmins())
    {
      CountAdminsUpdate(users, usersHasIsActive, username, u);
      users := users[username := u];
      LogActivity(actor, action, Some("users"), Some(username), None, None, now);
    }

    /** update_user_password. */
    method UpdateUserPassword(username: string, newPassword: string, actor: Option<string>,
                              passwordHash: string, now: DateTime)
      returns (ok: bool, message: string)
      requires Valid() && ValidDateTime(now)
      modifies this`users, this`log
      ensures Valid()
      ensures ok <==> username != "" && newPassword != "" && username in old(users)
      ensures username == "" || newPassword == "" ==> message == "Username and new password are required"
      ensures username != "" && newPassword != "" && username !in old(users) ==> message == "User not found"
      ensures !ok ==> users == old(users) && log == old(log)
      ensures ok ==> message == "Password updated"
                     && users == old(users)[username := old(users)[username].(passwordHash := passwordHash)]
                     && log == old(log) + [LogEntry(Format(now), actor, "update_password", Some("users"), Some(username), None, None)]
      ensures CountAdmins() == old(CountAdmins())
    {
      if username == "" || newPassword == "" {
        return false, "Username and new password are required";
      }
      if username !in users {
        return false, "User not found";
      }
      ReplaceUserRow(username, users[username].(passwordHash := passwordHash), "update_password", actor, now);
      return true, "Password updated";
    }

    /** update_user_role: only 'user' and 'admin'; an admin is not demoted
        while count_admins() <= 1. */
    method UpdateUserRole(username: string, newRole: string, actor: Option<string>, now: DateTime)
      returns (ok: bool, message: string)
      requires Valid() && ValidDateTime(now)
      modifies this`users, this`log
      ensures Valid()
      ensures ok <==> ValidRole(newRole) && username in old(users)
                      && !(newRole == "user" && old(users)[username].role == Some("admin") && old(CountAdmins()) <= 1)
      ensures !ValidRole(newRole) ==> message == "Invalid role"
      ensures ValidRole(newRole) && username !in old(users) ==> message == "User not found"
      ensures (newRole == "user" && username in old(users) && old(users)[username].role == Some("admin")
               && old(CountAdmins()) <= 1) ==> message == "Cannot demote the last admin"
      ensures !ok ==> users == old(users) && log == old(log)
      ensures ok ==> message == "Role updated"
                     && users == old(users)[username := old(users)[username].(role := Some(newRole))]
                     && log == old(log) + [LogEntry(Format(now), actor, "update_role", Some("users"), Some(username), None, None)]
      ensures old(CountAdmins()) >= 1 ==> CountAdmins() >= 1
    {
      if !ValidRole(newRole) {
        return false, "Invalid role";
      }
      if newRole == "user" {
        if username !in users {
          return false, "User not found";
        }
        if users[username].role == Some("admin") && CountAdmins() <= 1 {
          return false, "Cannot demote the last admin";
        }
      }
      if username !in users {
        return false, "User not found";
      }
      ReplaceUserRow(username, users[username].(role := Some(newRole)), "update_role", actor, now);
      return true, "Role updated";
    }

    /** set_user_active: needs the is_active column; nobody changes their
        own account; the last counted admin is not deactivated. */
    method SetUserActive(username: string, active: bool, actor: Option<string>, now: DateTime)
      returns (ok: bool, message: string)
      requires Valid() && ValidDateTime(now)
      modifies this`users, this`log
      ensures Valid()
      ensures ok <==> usersHasIsActive && actor != Some(username) && username in old(users)
                      && (active || !(old(users)[username].role == Some("admin") && old(CountAdmins()) <= 1))
      ensures !usersHasIsActive ==> message == "This operation is not supported on current schema"
      ensures usersHasIsActive && actor == Some(username) ==> message == "You cannot deactivate your own account"
      ensures usersHasIsActive && actor != Some(username) && username !in old(users) ==> message == "User not found"
      ensures (usersHasIsActive && actor != Some(username) && username in old(users) && !active
               && old(users)[username].role == Some("admin") && old(CountAdmins()) <= 1)
              ==> message == "Cannot deactivate the last admin"
      ensures !ok ==> users == old(users) && log == old(log)
      ensures ok ==> users == old(users)[username := old(users)[username].(isActive := Some(if active then 1 else 0))]
                     && log == old(log) + [LogEntry(Format(now), actor, if active then "activate_user" else "deactivate_user",
                                                    Some("users"), Some(username), None, None)]
                     && message == (if active then "User reactivated" else "User deactivated")
      ensures old(CountAdmins()) >= 1 ==> CountAdmins() >= 1
    {
      if !usersHasIsActive {
        return false, "This operation is not supported on current schema";
      }
      if actor == Some(username) {
        return false, "You cannot deactivate your own account";
      }
      if username !in users {
        return false, "User not found";
      }
      var row := users[username];
      if active {
        ReplaceUserRow(username, row.(isActive := Some(1)), "activate_user", actor, now);
        return true, "User reactivated";
      }
      if row.role == Some("admin") && CountAdmins() <= 1 {
        return false, "Cannot deactivate the last admin";
      }
      ReplaceUserRow(username, row.(isActive := Some(0)), "deactivate_user", actor, now);
      return true, "User deactivated";
    }
  }
}
