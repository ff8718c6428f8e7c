# A verified model of the BJM car-parts database core

The system is a small customer-relationship store for a car-parts dealer,
structured as follows.

- Clients are keyed by phone number. Each client owns vehicles, identified
  by VIN.
- Parts are ordered either for a vehicle or for a client with no vehicle.
- Each part carries supplier quotes (price and delivery time).
- Every change is written to an activity log.
- Administrators manage the user accounts that may sign in.

This Dafny project models the following parts of it:

- the input validators;
- the SQLite schema with its foreign keys and `ON DELETE CASCADE`;
- every audited create, update, delete, rename and move operation of the
  data layer;
- the user-administration rules (the last-admin and self-deactivation guards,
  and retiring the default `admin` account);
- the authentication decision and the session transitions;
- the arithmetic and filtering of the page script that is not rendering:
  pagination, the inactivity timeout, the delete snapshots with their undo
  replay, and the "Parts Without VIN" filter.

It also proves properties of each of these.

Layout (one module per file, following the source's modules):

| file | module | models |
|---|---|---|
| wrappers.dfy | Wrappers | `Option`, `Result` |
| text.dfy | Text | Python's `str.isspace`, `split`/`join`, `strip`, `upper`/`lower` (ASCII letters), `str(int)`; SQLite `TRIM` |
| security.dfy | Security | security.py |
| store.dfy | Schema | the table rows, the foreign keys, the cascade and the rowid rule of db_utils.py's schema |
| timestamps.dfy | Timestamps | `strftime("%Y-%m-%d %H:%M:%S")` and the order of the text it produces |
| dbutils.dfy | DbUtils | db_utils.py: `class Database` (the state one SQLite file holds), log_activity, migrate_schema, count_admins, the user administration, the export selection |
| activitylog.dfy | ActivityLog | get_activity_logs |
| logic.dfy | Logic | logic.py: the mutations, as methods that change a `Database` |
| auth.dfy | Auth | auth.py: hash-format checks, authenticate_user, `class Session` |
| app.dfy | App | the page-script fragments of app.py |

Modelling choices:

- **Tables.** Tables are maps from key to row. `clients` is keyed by phone. `parts` and `part_suppliers` are keyed by their
  `INTEGER PRIMARY KEY`. `vins` is keyed by SQLite's hidden rowid, because its
  `vin_number TEXT PRIMARY KEY` is nullable: several rows may hold NULL, and
  the uniqueness of the non-null numbers is part of `Database.Valid()`.
- **Row ids.** A new row's id is one more than the largest id in use, or 1 in an empty table
  (`Schema.NextRowId`), as SQLite assigns rowids.
- **Foreign keys.** Every connection turns foreign keys on (db_utils.py:25, auth.py:21). So an
  insert or update that would leave a dangling reference fails with
  `FOREIGN KEY constraint failed`. The model's `Database.Valid()`
  includes referential integrity, which every operation preserves.
- **Cascade.** `ON DELETE CASCADE` is the explicit function `Schema.Cascade`: the largest
  sub-database whose keys all resolve.
- **Atomic steps.** Each multi-statement operation is one atomic step. An error leaves
  the tables and the log as they were.
- **Parameters for the outside world.** The current instant (`now`), the idle
  time of a session, the SHA-256 digest of the password and the answer of
  `bcrypt.checkpw` are all parameters.
- **Errors.** Python exceptions are `Result.Err` values carrying the exception class and message.

Where the model departs from a plain reading of the source's intent,
it follows the code:

- **validate_phone and a trailing newline.** `re.match` with `$` also accepts one trailing newline. So validate_phone
  accepts a 16-character value ending in `'\n'`, and is not simply "7 to 15
  phone characters" (`Security.ValidatePhoneTrailingNewline`).
- **validate_vin and upper-casing.** validate_vin gives the same verdict after upper-casing for every value
  except the sentinel `"No VIN provided"`. That value is accepted verbatim,
  but its upper-cased form is rejected (`Security.SentinelNotCaseInsensitive`).
- **The SHA-256 format check.** `_looks_like_sha256_hex` is looser than its name: `int(x, 16)` also
  takes a sign (`Auth.SignedTextLooksLikeSha256`).
- **update_vin with a blank new VIN.** A new VIN made only of whitespace passes the emptiness check, cleans to
  `""`, and is accepted by `validate_vin("")`. The model keeps that behaviour.

## Model

| member | source | states |
|---|---|---|
| Text.UpperChar | security.py:16 | upper-cases exactly the ASCII lower-case letters, leaves every other character, and keeps whitespace whitespace |
| Text.LowerChar | logic.py:311 | lower-cases exactly the ASCII upper-case letters (SQLite `LOWER`) |
| Text.Upper | security.py:16 | same length, each character upper-cased |
| Text.Lower | logic.py:311 | same length, each character lower-cased |
| Text.RemoveSpaces | security.py:16 | `''.join(s.split())`: no whitespace is left, every non-whitespace character survives, nothing new appears, a string without whitespace is unchanged |
| Text.RemoveSpacesAppend | security.py:16 | removing whitespace distributes over concatenation |
| Text.RemoveSpacesUpper | security.py:16 | removing whitespace and upper-casing commute |
| Text.UpperIdempotent | security.py:16 | upper-casing twice is upper-casing once |
| Text.TrimLeft | security.py:28 | the result does not start with whitespace, and what was dropped was whitespace |
| Text.TrimRight | security.py:28 | the result does not end with whitespace, and what was dropped was whitespace |
| Text.TrimLeftSuffix | security.py:28 | `lstrip` keeps a suffix of its argument |
| Text.TrimRightPrefix | security.py:28 | `rstrip` keeps a prefix of its argument |
| Text.Strip | security.py:28 | `strip()`: no longer than its argument, and with no whitespace at either end |
| Text.StripSlice | security.py:28 | `strip()` keeps a contiguous piece of the argument and drops only whitespace on both sides |
| Text.TrimLeftFixed | security.py:28 | a string not starting with whitespace is its own `lstrip` |
| Text.TrimRightFixed | security.py:28 | a string not ending with whitespace is its own `rstrip` |
| Text.StripFixed | security.py:28 | a string without surrounding whitespace is its own strip |
| Text.StripIdempotent | security.py:28 | stripping twice is stripping once |
| Text.StripNoSpaces | app.py:604 | a string without whitespace is unchanged by strip |
| Text.SqlTrim | logic.py:289 | SQLite `TRIM(x)`: removes spaces at both ends and leaves a string with none there unchanged |
| Text.NatToString | logic.py:505 | `str()` of a natural: decimal digits without a leading zero that denote the number, one digit exactly below 10 |
| Text.NatToStringInjective | logic.py:505 | different naturals are written differently |
| Text.IntToString | logic.py:505 | `str()` of an int: starts with '-' exactly for negatives, and the digits (after the sign) denote its magnitude |
| Text.IntToStringInjective | logic.py:505 | different integers are written differently |
| Security.ValidatePhone | security.py:4-9 | false for None and ""; an accepted value has 7 to 16 phone characters; any 7 to 15 phone characters are accepted |
| Security.PhonePattern | security.py:8-9 | `^[\d\s\-\+\(\)]{7,15}$`: 7 to 15 phone characters, or 16 ending in the newline `$` lets through |
| Security.ValidatePhoneExact | security.py:8-9 | apart from a 16th character '\n', accepted exactly when 7 to 15 characters, each a digit, whitespace, '-', '+', '(' or ')' |
| Security.ValidatePhoneTrailingNewline | security.py:8-9 | a 16-character value ending in a newline is accepted, one of 16 digits is not |
| Security.CleanVin | security.py:16 | the cleaned VIN has no whitespace and no lower-case letter |
| Security.VinShape | security.py:18-22 | a cleaned VIN of length 0, 7, 13 or 17 whose characters are digits or letters other than I, O and Q |
| Security.ValidateVin | security.py:11-22 | true for None, "" and the sentinel; otherwise exactly the shape (length 0, 7, 13 or 17, VIN alphabet) of the cleaned value |
| Security.VinBadLengthRejected | security.py:18-19 | a cleaned length outside {0, 7, 13, 17} is rejected |
| Security.UpperIsNotSentinel | security.py:13 | no upper-cased string equals the sentinel |
| Security.CleanVinUpper | security.py:16 | cleaning an upper-cased string equals cleaning the string |
| Security.VinCaseInsensitive | security.py:13-22 | for every value but the sentinel, upper-casing does not change the verdict |
| Security.SentinelNotCaseInsensitive | security.py:13-22 | the sentinel is accepted but its upper-cased form is rejected |
| Security.CleanVinHas | security.py:16 | a non-whitespace input character reaches the cleaned value upper-cased |
| Security.VinWhitespaceInsensitive | security.py:16 | inserting a whitespace character anywhere never changes the verdict, sentinel strings aside |
| Security.RemoveSpacesInsert | security.py:16 | an inserted whitespace character is removed by cleaning |
| Security.VinRejectsForbiddenChar | security.py:16-22 | a value holding I, O or Q in either case, or a character that is not whitespace, ASCII letter or digit, is rejected |
| Security.SanitizeInput | security.py:24-28 | None stays None; a string becomes no longer, with no whitespace at either end |
| Security.SanitizeIdempotent | security.py:24-28 | sanitising twice is sanitising once |
| Security.ValidateNumeric | security.py:30-40 | true exactly when the value parses and lies within each bound given |
| Security.EmailPattern | security.py:46 | the pattern `[^@\s]+@[^@\s]+\.[^@\s]+` matching the whole string |
| Security.EmailPatternExact | security.py:46 | the pattern matches exactly the strings with no whitespace, one '@' not first, and a '.' after it that is neither right after the '@' nor last |
| Security.ValidateEmail | security.py:42-47 | false for None and ""; otherwise true exactly for that shape, or that shape followed by one final newline |
| Security.EmailAccepted | security.py:42-47 | an ordinary address passes |
| Security.EmailWithoutAtRejected | security.py:42-47 | an address without '@' fails |
| Security.EmailWithoutDotRejected | security.py:42-47 | an address whose domain has no dot fails |
| Security.NormalizeVin | security.py:49-53 | "" for None and ""; the output has no whitespace and no lower-case letter |
| Security.NormalizeVinIdempotent | security.py:49-53 | normalising twice is normalising once |
| Security.ValidateVinIsShapeOfNormalized | security.py:11-22 | outside None, "" and the sentinel, validate_vin judges exactly the normalised value |
| Schema.VinNumbers | db_utils.py:78-92 | the set of non-null VIN numbers, both directions |
| Schema.VinNumbersInsert | db_utils.py:78-92 | inserting a vins row adds its number, if any, to the numbers in use |
| Schema.Cascade | db_utils.py:78-129 | `ON DELETE CASCADE`: integrity holds afterwards, clients untouched, every table a sub-map, and every row whose parents survive is kept |
| Schema.CascadeIdentity | db_utils.py:78-129 | a database whose keys all resolve is left alone |
| Schema.SubMapUniqueVins | db_utils.py:79 | deleting rows keeps the VIN key unique |
| Schema.DeleteClientCascade | db_utils.py:91 | deleting a client removes exactly its vins, the parts naming it or one of its VINs, and their supplier rows |
| Schema.OtherSuppliers | db_utils.py:128 | the supplier rows kept are exactly those of other parts |
| Schema.DeletePartCascade | db_utils.py:128 | deleting a part removes it and its supplier rows and nothing else |
| Schema.DeleteVinsCascade | db_utils.py:110 | deleting vins rows removes exactly those, the parts naming one of their numbers, and those parts' supplier rows |
| Schema.NextRowId | db_utils.py:99 | the next rowid is fresh, above every id, 1 for an empty table, and one above the largest |
| Schema.NextRowIdAfterInsert | db_utils.py:99 | after an insert under the next rowid, the following one is one higher |
| Schema.NextRowIdPositive | db_utils.py:99 | positive ids give a positive next id |
| Timestamps.LexLeTotal | db_utils.py:209 | the text order is total |
| Timestamps.LexLeTrans | db_utils.py:209 | the text order is transitive |
| Timestamps.LexLeAntisym | db_utils.py:209 | the text order is antisymmetric |
| Timestamps.LexLeRefl | db_utils.py:209 | the text order is reflexive |
| Timestamps.LexLeConcat | db_utils.py:209 | texts with equal-length heads compare by the heads first |
| Timestamps.Pad | db_utils.py:240 | a zero-padded field has exactly the width asked |
| Timestamps.PadOrder | db_utils.py:240 | zero-padded numbers of one width sort as text as they sort as numbers, and are distinct when the numbers are |
| Timestamps.Format | db_utils.py:240 | the stored timestamp has 19 characters |
| Timestamps.SeparatorOrder | db_utils.py:240 | a common separator does not change the order |
| Timestamps.FormatOrder | db_utils.py:209 | the stored texts sort exactly as the instants do |
| DbUtils.Snapshot | db_utils.py:246-247 | a missing or empty snapshot is stored as NULL, any other is kept |
| DbUtils.CountedAdmins | db_utils.py:282-287 | exactly the users with role admin and, when the column exists, `COALESCE(is_active,1)=1` |
| DbUtils.CountedAdmin | db_utils.py:282-285 | a user is counted iff role admin and, when the column exists, `COALESCE(is_active,1)=1` |
| DbUtils.AdminCount | db_utils.py:279-290 | count_admins is at most the number of users, and 0 exactly when no user counts |
| DbUtils.CountAdminsUpdate | db_utils.py:279-290 | changing one row moves the count by at most one, in the direction of that row's status |
| DbUtils.OthersUnchanged | db_utils.py:279-290 | changing one row does not change who else is counted |
| DbUtils.CountAdminsInsert | db_utils.py:279-290 | a new user raises the count by one exactly when counted |
| DbUtils.RetireDefaultAdmin | db_utils.py:321 | only `admin` changes, and it is no longer active |
| DbUtils.Migrate | db_utils.py:161-184 | no deposit or balance afterwards, is_active present, other columns kept, every user gets `is_active = 1` when the column is added |
| DbUtils.MigrateIdempotent | db_utils.py:161-184 | migrating twice is migrating once |
| DbUtils.MigrateKeepsAdmins | db_utils.py:177-180 | migration never lowers the set of counted admins |
| DbUtils.Str | db_utils.py:412 | `astype(str)` keeps text unchanged |
| DbUtils.ApplyBasicFilters | db_utils.py:399-418 | same table, a subset of it; no filter gives the identity; clients filtered by phone, vins and parts by client phone and VIN (both directions); part_suppliers untouched |
| DbUtils.IncludedTables | db_utils.py:432-435 | only known table names; all four when none is asked; otherwise exactly the known ones asked |
| DbUtils.KeepKnown | db_utils.py:435 | exactly the known names, and all of them when all are known |
| DbUtils.FilteredParts | db_utils.py:446-448 | a subset of parts, and exactly the rows the filter keeps |
| DbUtils.ExportFilteredData | db_utils.py:420-463 | a table is present iff selected; parts are the filtered parts; part_suppliers are exactly the rows whose part survived the filter |
| DbUtils.ExportClosed | db_utils.py:446-463 | on an integral database every exported supplier's part is exported too |
| DbUtils.UsersAfterCreate | db_utils.py:305-321 | the new account holds the hash and role given, and no other account appears or disappears |
| DbUtils.Database.CountAdmins | db_utils.py:279-290 | the count is at most the number of users |
| DbUtils.Database.constructor | db_utils.py:45-157 | empty data tables, empty log, only the default admin, one counted admin |
| DbUtils.Database.LogActivity | db_utils.py:229-252 | exactly one entry appended with the formatted instant and NULL for empty snapshots; earlier entries unchanged |
| DbUtils.Database.MigrateSchema | db_utils.py:161-184 | the schema becomes `Migrate` of the old one and the invariant holds |
| DbUtils.Database.CreateUser | db_utils.py:292-327 | each refusal with its message and no change; success iff all checks pass; the new user active; one log entry; an admin exists afterwards when one was created or one existed |
| DbUtils.Database.InsertUser | db_utils.py:305-321 | the users table after the insert and the retirement, one log entry, at least one admin kept |
| DbUtils.Database.AddUserRow | db_utils.py:305-316 | one row added, one log entry, admin count raised by one iff the row counts |
| DbUtils.Database.RetireDefault | db_utils.py:318-321 | the default admin retired while another counted admin remains |
| DbUtils.Database.ReplaceUserRow | db_utils.py:336-340 | one row replaced, one log entry, the admin count moving with that row's status |
| DbUtils.Database.UpdateUserPassword | db_utils.py:329-343 | refusals with their messages and no change; on success only the hash changes and one entry is logged; the admin count is unchanged |
| DbUtils.Database.UpdateUserRole | db_utils.py:345-366 | role validated; the last admin is not demoted; on success only the role changes; an admin always remains |
| DbUtils.Database.SetUserActive | db_utils.py:368-397 | needs the column; no self-change; the last admin is not deactivated; reactivation sets 1 and deactivation 0; an admin always remains |
| ActivityLog.Matching | db_utils.py:206-208 | the entries selected, with their multiplicities |
| ActivityLog.Insert | db_utils.py:209 | inserting keeps newest-first order and adds exactly that entry |
| ActivityLog.HeadNewest | db_utils.py:209 | an entry at least as new as the head can go first |
| ActivityLog.ConsNewest | db_utils.py:209 | an entry no older than all others can go first |
| ActivityLog.BoundedByHead | db_utils.py:209 | what goes behind the head is no newer than it |
| ActivityLog.SortNewestFirst | db_utils.py:209 | `ORDER BY timestamp DESC`: newest first and a permutation |
| ActivityLog.Limit | db_utils.py:209-210 | `LIMIT n`: a prefix of at most n entries, all of them for a negative or large limit |
| ActivityLog.GetActivityLogs | db_utils.py:200-215 | at most `limit` (by default `DefaultLimit`, 100) entries, all of the given user, newest first, exactly the newest matching ones; any failure gives the empty list |
| ActivityLog.SortedLength | db_utils.py:209 | sorting keeps the number of entries |
| ActivityLog.LimitSelected | db_utils.py:206-210 | every entry kept is selected |
| ActivityLog.LimitOfSorted | db_utils.py:209-210 | a prefix of a sorted log holds its newest entries |
| ActivityLog.StampedOrder | db_utils.py:240 | the stored timestamps order the instants chronologically, and are equal exactly for equal instants |
| Logic.Audit | logic.py:62-63 | the entry carries the formatted instant, the user, the table and the record |
| Logic.AddSuppliersKeys | logic.py:156-160 | the insert loop keeps old rows and adds one row per input, under fresh ids, each for the part |
| Logic.AddSuppliers | logic.py:156-160 | the insert loop: each supplier input under the next rowid, in list order |
| Logic.AddSuppliersOrder | logic.py:156-160 | input i is stored under rowid base + i |
| Logic.AddSuppliersAt | logic.py:156-160 | input i lands under the i-th rowid after the largest |
| Logic.ReplaceSuppliersSpec | logic.py:408-417 | after update_part the other parts' rows are untouched and the part's rows are exactly one per input, in order |
| Logic.ReplaceSuppliers | logic.py:413-417 | `DELETE FROM part_suppliers WHERE part_id = ?` followed by the insert loop |
| Logic.NewRowsCount | logic.py:413-417 | the part's rows after the replacement are as many as were added |
| Logic.NewRowsAreMine | logic.py:413-417 | the part's rows after the replacement are exactly the new rows |
| Logic.RequestedVin | logic.py:271-274 | None for a missing or blank argument, else its strip |
| Logic.PlaceholderVin | logic.py:285 | a missing VIN argument: NULL, blank, or "none" / "no vin provided" in any letter case |
| Logic.PlaceholderTargets | logic.py:285-295 | exactly the client's rows whose VIN is NULL, blank or a placeholder |
| Logic.ExactTargets | logic.py:297-305 | exactly the rows in scope carrying the VIN |
| Logic.LooseTargets | logic.py:307-319 | exactly the rows in scope matching `LOWER(TRIM())`; it includes the exact matches |
| Logic.DeleteVinTargets | logic.py:265-333 | in scope; nothing for an unscoped placeholder; the placeholder rows for a scoped one; the exact matches, or else the loose ones |
| Logic.ExactMatchFirst | logic.py:297-305 | when a row carries exactly the VIN, only that row is deleted |
| Logic.RenameClientEffect | logic.py:373-378 | the client rename re-points exactly the rows on the old phone and changes nothing else |
| Logic.RenameClient | logic.py:373-378 | update_client_and_vins in one step: the client re-keyed and renamed, its vins and parts re-pointed, suppliers untouched |
| Logic.RenameClientSound | logic.py:356-388 | the rename keeps integrity and the VIN numbers, the client moves to the new key, and no row keeps the old phone |
| Logic.RenameVinEffect | logic.py:683-701 | the VIN rename changes the number, details and editor of that row and re-points its parts, nothing else |
| Logic.RenameVin | logic.py:683-701 | update_vin in one step: the row takes the new number and details, and the parts follow a changed number |
| Logic.RenameVinSound | logic.py:660-719 | with the new number free, the rename keeps integrity and uniqueness, swaps the number, and leaves no part on the old one |
| Logic.RenameVinNumbers | logic.py:683-701 | the numbers in use lose the old and gain the new |
| Logic.RenameVinRefs | logic.py:683-701 | the re-pointed parts still reference existing rows |
| Logic.StoredVin | logic.py:74-82 | the cleaned VIN, or NULL for one that cleans to nothing |
| Logic.VinAccepted | logic.py:74-77 | add_vin_to_client accepts a missing VIN or one that is valid once cleaned |
| Logic.NewPart | logic.py:144-154 | the row carries the VIN, client and date given |
| Logic.CommitCascade | db_utils.py:78-129 | after a delete the tables are the cascade of what remains, and valid |
| Logic.InsertSuppliers | logic.py:156-160 | the loop inserts the rows `AddSuppliers` describes, keeping the invariant |
| Logic.AddedSuppliersValid | logic.py:156-160 | rows added for an existing part keep its key resolved and ids positive |
| Logic.AddNewClient | logic.py:37-64 | each refusal with its message and no change; success iff the phone is present, valid and new; exactly one client added and one entry logged |
| Logic.DeleteClient | logic.py:244-263 | refusal for an empty phone; otherwise the cascade of the deletion, nothing left on the phone, one entry logged |
| Logic.UpdateClientAndVins | logic.py:356-388 | the refusals; success iff both phones are given and the new one is free; the rename; one entry logged |
| Logic.ApplyClientRename | logic.py:373-378 | the three UPDATEs perform `RenameClient` and keep the invariant |
| Logic.InsertVinSound | logic.py:99-102 | a new vins row with an existing client and a free number keeps integrity and uniqueness |
| Logic.InsertPartSound | logic.py:144-154 | a new part whose VIN and client exist keeps integrity |
| Logic.InsertVinOrIgnore | logic.py:99-102 | ignored exactly for a duplicate non-null VIN; otherwise inserted under the next rowid |
| Logic.AddVinToClient | logic.py:66-106 | each refusal with its message; success iff the phone is valid and known and the VIN accepted; a duplicate VIN leaves vins unchanged; one entry logged |
| Logic.InsertSupplier | logic.py:127-131 | one supplier row under the next rowid |
| Logic.AddSupplierToPart | logic.py:108-135 | each refusal with its message; success iff the part exists, the name is given and both prices are non-negative; one row added and one entry logged |
| Logic.AddPartToVin | logic.py:137-171 | refusal without name and number; foreign-key failure; otherwise one part under the next id, one supplier row per input for it, one entry logged |
| Logic.InsertPart | logic.py:144-160 | the part under the next id and its supplier rows |
| Logic.FreshPartSuppliers | logic.py:156-160 | inserting under a new part id gives exactly one fresh row per input, in order |
| Logic.SafeAddPartToVin | logic.py:173-206 | the missing name and number, the quantity below 1 and the foreign-key failure each refused with the error and no change; on success exactly the part row (quantity at least 1) and its suppliers, and the add_part entry naming the new id, name and number |
| Logic.QuantityOk | logic.py:191 | `validate_numeric(quantity, min_val=1)`: a quantity that parses and is at least 1 |
| Logic.AddPartWithoutVin | logic.py:208-242 | refusal without name and number; the client must exist; one part with NULL VIN; one entry logged |
| Logic.DeleteVin | logic.py:265-333 | returns the number of vins rows deleted; an unscoped placeholder changes nothing; otherwise the targets with their cascade and one entry logged |
| Logic.RemoveNamedVin | logic.py:297-319 | the exact match is deleted first, the loose one only when it found nothing |
| Logic.RemoveVins | logic.py:297-319 | one DELETE with its cascade |
| Logic.DeletePart | logic.py:335-354 | refusal for id 0; otherwise the part and its supplier rows gone, nothing else, one entry logged |
| Logic.DeleteSupplier | logic.py:517-544 | refusal for id 0; otherwise that row gone and one entry logged |
| Logic.EditedPart | logic.py:408-411 | the edited row keeps VIN, client and date and takes the new fields |
| Logic.RemovePartSuppliers | logic.py:413 | the part's supplier rows are removed, nothing else |
| Logic.UpdatePart | logic.py:390-430 | the refusals; success iff the part exists and a name or number is given; the part edited; its suppliers replaced exactly by the list; one entry logged |
| Logic.ApplyPartEdit | logic.py:408-417 | the part row edited and its supplier rows replaced |
| Logic.EditPartSound | logic.py:408-411 | editing descriptive columns keeps integrity |
| Logic.UpdateSupplier | logic.py:476-515 | each refusal with its message; success iff the row exists, a name is given and both prices are non-negative; that row updated; one entry logged |
| Logic.MovedPart | logic.py:636-640 | the moved row takes the VIN and client given and keeps its other fields |
| Logic.MovePartToVin | logic.py:604-658 | each refusal with its message; success iff the part and the target VIN exist; the part takes the target row's VIN and client; one entry logged |
| Logic.ApplyMove | logic.py:636-651 | the UPDATE and its log entry |
| Logic.MovePartSound | logic.py:636-640 | re-pointing a part at an existing vins row and its client keeps integrity |
| Logic.ApplyVinRename | logic.py:683-701 | the two UPDATEs perform `RenameVin` and keep the invariant |
| Logic.UpdateVin | logic.py:660-719 | each refusal with its message; success iff old exists and the cleaned new one is valid and free; the rename; one entry logged |
| Auth.LooksLikeBcrypt | auth.py:27-31 | true iff the text starts with "$2" and is longer than 50 |
| Auth.LooksLikeSha256Hex | auth.py:33-40 | false for any length but 64; true for every 64-digit hex text |
| Auth.DigestIsHexInt | auth.py:36-38 | `int(x, 16)` accepts a run of hex digits |
| Auth.HexIntText | auth.py:36-38 | what `int(x, 16)` accepts: surrounding whitespace, an optional sign, an optional `0x` prefix, then hex digits with single underscores between them |
| Auth.SignedTextLooksLikeSha256 | auth.py:33-40 | a signed 63-digit hex text also passes |
| Auth.AuthDecision | auth.py:56-98 | refusal for an unknown or inactive user; success iff admissible and the password matches; the role returned only on success |
| Auth.RefusedWhateverPassword | auth.py:60-64 | an unknown or inactive user is refused whatever the password |
| Auth.LoggedIn | auth.py:72-95 | role, activity and creation date kept; last_login set to now |
| Auth.LoggedInStoresDigest | auth.py:68-89 | after a successful login the stored hash is the SHA-256 digest |
| Auth.AuthenticateUser | auth.py:42-101 | the decision; no change on refusal; on success the hash downgraded and last_login set |
| Auth.PairsMap | auth.py:121-131 | the dictionary holds every key listed, each with a value listed for it |
| Auth.SessionDefaults | auth.py:121-131 | the nine default keys of init_session_state, in insertion order, with their default values |
| Auth.InitSession | auth.py:120-135 | the session after init_session_state: the defaults for the missing keys, the session's own values elsewhere |
| Auth.InitSessionSpec | auth.py:133-135 | existing keys untouched, every default key present, absent keys set to the defaults |
| Auth.DefaultKeysFixed | auth.py:121-131 | the default keys do not depend on the clock |
| Auth.SameKeysSameDomain | auth.py:121-131 | pair lists with the same keys give the same domain |
| Auth.InitSessionIdempotent | auth.py:120-135 | a second call changes nothing |
| Auth.UnionAbsorbed | auth.py:133-135 | a dictionary whose keys are all present is absorbed by the union |
| Auth.UnionStep | auth.py:133-135 | one step of the defaults loop |
| Auth.Session.constructor | auth.py:120 | an empty session dictionary |
| Auth.Session.InitSessionState | auth.py:120-135 | the loop leaves `InitSession` of the old dictionary |
| Auth.Session.SubmitLogin | auth.py:146-167 | the session becomes `LoginVars` of the old one, and one login or login_failed entry is logged |
| Auth.LoginVars | auth.py:146-167 | same keys plus the flags; on success authenticated, the username and the role set; on failure login_attempted set, authentication keys kept; login_loading always False |
| Auth.AdminAccessAfterLogin | auth.py:42-101 | after a submitted login admin pages open iff the user exists, is admissible, the password matches and the role is admin, or the login failed on a session that was already admin |
| Auth.Session.Logout | auth.py:169-180 | the session after logout; a logout entry only when authenticated |
| Auth.NameOf | auth.py:172 | the session username that is text, for the audit log |
| Auth.LoggedOut | auth.py:174-180 | authenticated False, username and role None, view main, other keys untouched |
| Auth.RequireAdmin | auth.py:182-194 | allowed iff authenticated with role admin; the login form iff not authenticated; the message otherwise |
| Auth.AccessAfterTransitions | auth.py:169-194 | after logout admin pages need login; after login they open exactly for role admin |
| App.TotalPages | app.py:270-272 | at least one page; the fewest pages of 20 that hold the clients |
| App.ClampPage | app.py:273-275 | the page clamped into range, unchanged when already in range |
| App.PageSlice | app.py:276-278 | at most 20 clients, those from position page * 20, a full page when enough remain |
| App.PagesCover | app.py:270-278 | every client is on exactly one reachable page |
| App.ClampedPageNonEmpty | app.py:270-278 | the page shown after clamping is never empty |
| App.PageButtons | app.py:312-319 | Previous and Next keep the page in range, each moves by one when enabled, Previous undoes Next |
| App.PreviousPage | app.py:312-313 | `max(current - 1, 0)` |
| App.NextPage | app.py:318-319 | `min(current + 1, total_pages - 1)` |
| App.TimedeltaSeconds | app.py:135 | `timedelta.seconds` is the idle time modulo a day |
| App.TimeoutFor | app.py:137-148 | warning iff over 3300 s with `divmod(3600 - s, 60)`; logout iff over 3600 s |
| App.SessionTimeoutAsWritten | app.py:135-148 | the timeout decision on `timedelta.seconds`, the idle time modulo a day |
| App.SessionTimeout | app.py:137-148 | the timeout decision on the whole idle time |
| App.DayLongIdleNotTimedOut | app.py:135-148 | a session idle for a day and ten seconds is neither warned nor logged out |
| App.SessionTimeoutSpec | app.py:135-148 | on the whole idle time: logout iff over an hour, a 0..4 minute countdown before, agreeing with the source below a day |
| App.QuantityOr1 | app.py:528 | never 0, and a non-zero quantity is kept |
| App.BackupOf | app.py:522-530 | the backup carries the row's id, VIN, client, name and number and a non-zero quantity |
| App.SuppliersOf | app.py:531 | exactly the supplier rows of the part |
| App.VinPartEntries | app.py:519-535 | exactly the entries of the parts carrying that VIN, in load order |
| App.VinSnapshotCovers | app.py:509-543 | the VIN snapshot holds every part carrying the VIN and every supplier row of each |
| App.VinSnapshot | app.py:509-543 | the Delete VIN backup: the VIN row, and each part carrying the VIN with its supplier rows |
| App.PartSnapshot | app.py:572-587 | the Delete part backup: the row and its supplier rows |
| App.RestoreInputsBounds | app.py:376-387 | at most one insert per record, each with non-negative prices |
| App.RestoreInputs | app.py:376-387 | the supplier records add_supplier_to_part accepts, as inserts, in order |
| App.RestoreInputsKeeps | app.py:376-387 | every acceptable record is restored |
| App.RestoreInputsAll | app.py:376-387 | when all records are acceptable all are restored, in order |
| App.AddSuppliersConcat | app.py:376-387 | inserting two lists in turn is inserting their concatenation |
| App.AddSupplierEntry | logic.py:133-134 | the add_supplier entry names the part id |
| App.SupplierLog | app.py:376-387 | one add_supplier entry per accepted record, in order |
| App.SupplierLogConcat | app.py:376-387 | the entries of two lists in turn are the entries of their concatenation |
| App.RestoreStep | app.py:376-387 | one record of the loop peeled off, for both the table and the entries |
| App.RestoreOne | app.py:377-387 | one pass: add_supplier_to_part, its failure swallowed; the table and log gain exactly that record's row and entry when it is acceptable |
| App.RestoreSuppliers | app.py:376-387 | the loop inserts exactly the acceptable records under the new id and logs one add_supplier entry for each |
| App.RestoredPart | app.py:353-374 | the VIN is NULL iff the backup's is empty or a placeholder; the client and a non-zero quantity carried |
| App.ReAddPart | app.py:353-374 | success iff the re-created part is acceptable; it goes under the next id with the add_part entry; no change on failure |
| App.AddPartEntry | logic.py:163-164 | the add_part entry names the new id |
| App.PartRestoreLog | app.py:350-388 | the add_part entry first, then one add_supplier entry per restored record |
| App.UndoPartDelete | app.py:350-388 | the part again under the next id, its acceptable suppliers under it, and the add_part entry followed by their add_supplier entries; no change on failure |
| App.ReAddVin | app.py:390-402 | success iff the phone is a client and the VIN is accepted; the vins table becomes `ReAddedVins` with the add_vin entry; no change on refusal |
| App.ReAddedVins | logic.py:66-106 | the vins table after add_vin_to_client: unchanged for a number in use, the row under the next id otherwise |
| App.ReAddedVinsSpec | logic.py:99-102 | the old rows kept, at most one added, and the VIN numbers gain the stored number |
| App.AddVinEntry | logic.py:103-104 | the add_vin entry names the stored VIN |
| App.ReAddVinPart | app.py:404-428 | refused with no change exactly when the entry cannot be added; otherwise the part row under the next id on the snapshot's VIN and phone, its acceptable suppliers and their entries |
| App.VinEntryPart | app.py:407-416 | the part row re-created for a VIN snapshot entry: that VIN and phone, the backup's name, number and non-zero quantity |
| App.ReplayParts | app.py:404-428 | the parts loop as a fold: each entry added with its suppliers, stopping at the first refused one |
| App.ReplayPartsSpec | app.py:404-428 | the replay keeps old rows, adds one part per accepted entry, all on the VIN and phone, and succeeds iff every entry was added |
| App.ReplayNext | app.py:404-428 | one entry of the loop: a refusal ends the replay, an addition advances it |
| App.ReAddVinParts | app.py:404-428 | the loop leaves exactly the parts, suppliers and log of `ReplayParts`, success iff the replay went through |
| App.UndoVinDelete | app.py:389-429 | refusal with no change when the VIN add is refused; otherwise the VIN re-added as `ReAddedVins`, then the parts replayed as `ReplayParts`, stopping at the first refused part, with the log of both |
| App.UndoSlot.constructor | app.py:430 | an empty undo slot |
| App.Undo | app.py:348-435 | the replay of the stored snapshot, exactly for both kinds with its log entries; the slot emptied on success and kept on failure |
| App.DeletePartWithUndo | app.py:572-595 | the snapshot stored before the delete; refusal for id 0 with no change; otherwise clients and vins untouched, the part and its suppliers gone, and the delete_part entry |
| App.DeleteVinWithUndo | app.py:509-549 | the snapshot stored; a placeholder VIN changes nothing; otherwise exactly the rows `DeleteVinTargets` names deleted, with their cascade and the delete_vin entry |
| App.WithoutVinAgreesWithUndo | app.py:600-607 | undo re-adds without a VIN exactly the parts the page lists under "Parts Without VIN", and such a part is listed there again |
| App.PartWithoutVin | app.py:600-607 | the "Parts Without VIN" filter: the client's parts whose VIN is NULL, blank, "None" or "No VIN provided" |

## Left out

- Hashing: bcrypt and SHA-256 are foreign calls. The digest of the password and the answer of `bcrypt.checkpw` are parameters, and so is the hash create_user and update_user_password store.
- The clock: `datetime.now()` is the parameter `now`, and the idle time of a session is a parameter in seconds.
- SQLite plumbing: connections, `PRAGMA` handling, commit and rollback, VACUUM/ANALYZE/integrity_check (database_maintenance), and the `sqlite3.Error` results ("DB error: …"). Each operation is one atomic step.
- Foreign-key check timing: SQLite checks foreign keys statement by statement during the renames of update_client_and_vins and update_vin. The model does not follow that order; both renames are one atomic step.
- The activity log's free-text `details` column and the tables' `created_date`/`last_updated` columns; `date_added` is kept.
- The order SQLite gives entries with equal timestamps: the model fixes one and promises nothing about it.
- Float parsing and float prices: `float(x)` is a `Numeric` value that either parses to a real or fails.
- Unicode digits and Unicode case mapping: `\d`, `upper()`, `lower()` and `int(x, 16)` are modelled on ASCII only.
- The read-only queries of logic.py (get_clients_by_page, get_parts_by_page, count_table_rows, the get_* helpers, get_client_info_for_export, get_quote_data) and search_db with its LIKE matching.
- list_users and get_user_role: read-only queries.
- pandas frames: loaded tables are maps or sequences of rows, and the CSV-zip and Excel serialisation of export_filtered_data and `st.cache_data` are not modelled.
- Streamlit rendering, reruns, the login form's widgets, backups, PDF generation.
- Logic.AddVinToClient: the `lastrowid` of an ignored insert is modelled as no row id; the source returns whatever the cursor reports.
- Logic.SafeAddPartToVin: a `part_data` dictionary missing a key is not modelled; the fields are `Option` values.
- Auth.NameOf: a session username that is not text is logged as no user.

## Findings

| source | as written | input that shows it | evidently intended | confidence | as-written member | corrected member |
|---|---|---|---|---|---|---|
| app.py:135 | the idle time is read with `timedelta.seconds`, the seconds part without whole days | a session left idle for 86410 s reads as 10 s: no warning, no logout | the whole idle time (`total_seconds()`), so that any idle time over 3600 s logs out | not executed | App.DayLongIdleNotTimedOut | App.SessionTimeoutSpec |
