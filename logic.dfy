/** logic.py: the audited create, update, delete, rename and move operations
    on clients, vins, parts and part_suppliers.  Each operation is a method
    on the one Database object; each multi-statement operation is one atomic
    step, and a sqlite error rolls the whole step back.  The wall clock is the
    `now` parameter, and the acting user is `username`. */
module Logic {
  import opened Wrappers
  import opened Text
  import opened Security
  import opened Schema
  import opened Timestamps
  import opened DbUtils

  /** The exceptions the operations raise, with their messages. */
  datatype Error = ValueError(message: string) | IntegrityError(message: string) | TypeError(message: string)

  const ForeignKeyFailed: string := "FOREIGN KEY constraint failed"

  /** The audit entry a successful operation appends. */
  function Audit(now: DateTime, username: string, action: string, table: string, recordId: Option<string>,
                 oldValues: Option<map<string, Value>>, newValues: Option<map<string, Value>>): (e: LogEntry)
    requires ValidDateTime(now)
    ensures e.timestamp == Format(now) && e.username == Some(username) && e.tableName == Some(table)
  {
    LogEntry(Format(now), Some(username), action, Some(table), recordId, Snapshot(oldValues), Snapshot(newValues))
  }

  // ---------------------------------------------------------------- supplier rows

  /** One entry of a `suppliers` list: the dictionary keys the inserts read. */
  datatype SupplierInput = SupplierInput(name: Option<string>, buyingPrice: Option<real>,
                                         sellingPrice: Option<real>, deliveryTime: Option<string>)

  function SupplierRow(partId: int, s: SupplierInput, username: string): Supplier {
    Supplier(partId, s.name, s.buyingPrice, s.sellingPrice, s.deliveryTime, username, username)
  }

  /** The supplier table after `for supplier in suppliers: INSERT INTO
      part_suppliers ...`: each row under the next rowid, in list order. */
  function AddSuppliers(sups: map<int, Supplier>, partId: int, inputs: seq<SupplierInput>, username: string): map<int, Supplier>
    decreases |inputs|
  {
    if inputs == [] then sups
    else AddSuppliers(sups[NextRowId(sups.Keys) := SupplierRow(partId, inputs[0], username)], partId, inputs[1..], username)
  }

  /** The insert loop keeps the old rows, adds exactly one row per input, all
      for `partId`, and uses no id at or below an old one. */
  lemma {:induction false} AddSuppliersKeys(sups: map<int, Supplier>, partId: int, inputs: seq<SupplierInput>, username: string)
    ensures var r := AddSuppliers(sups, partId, inputs, username);
      && SubMap(sups, r)
      && |r| == |sups| + |inputs|
      && (forall k :: k in r && k !in sups ==> NextRowId(sups.Keys) <= k < NextRowId(sups.Keys) + |inputs| && r[k].partId == partId)
    decreases |inputs|
  {
    if inputs != [] {
      var m := NextRowId(sups.Keys);
      var next := sups[m := SupplierRow(partId, inputs[0], username)];
      NextRowIdAfterInsert(sups.Keys);
      assert next.Keys == sups.Keys + {m};
      AddSuppliersKeys(next, partId, inputs[1..], username);
    }
  }

  /** Input `i` is stored under rowid `base + i`. */
  predicate RowAt(r: map<int, Supplier>, base: int, partId: int, inputs: seq<SupplierInput>, username: string, i: int)
    requires 0 <= i < |inputs|
  {
    base + i in r && r[base + i] == SupplierRow(partId, inputs[i], username)
  }

  /** Input `i` is stored under rowid `base + i`, for every `i`. */
  predicate RowsAt(r: map<int, Supplier>, base: int, partId: int, inputs: seq<SupplierInput>, username: string) {
    forall i :: 0 <= i < |inputs| ==> RowAt(r, base, partId, inputs, username, i)
  }

  /** The insert loop stores the inputs in list order from the rowid after
      the old largest. */
  lemma AddSuppliersOrder(sups: map<int, Supplier>, partId: int, inputs: seq<SupplierInput>, username: string)
    ensures RowsAt(AddSuppliers(sups, partId, inputs, username), NextRowId(sups.Keys), partId, inputs, username)
  {
    var r := AddSuppliers(sups, partId, inputs, username);
    forall i | 0 <= i < |inputs| ensures RowAt(r, NextRowId(sups.Keys), partId, inputs, username, i) {
      AddSuppliersAt(sups, partId, inputs, username, i);
    }
  }

  /** The i-th input lands under the i-th rowid after the old largest. */
  lemma {:induction false} AddSuppliersAt(sups: map<int, Supplier>, partId: int, inputs: seq<SupplierInput>, username: string, i: int)
    requires 0 <= i < |inputs|
    ensures RowAt(AddSuppliers(sups, partId, inputs, username), NextRowId(sups.Keys), partId, inputs, username, i)
    decreases |inputs|
  {
    var m := NextRowId(sups.Keys);
    var next := sups[m := SupplierRow(partId, inputs[0], username)];
    NextRowIdAfterInsert(sups.Keys);
    assert next.Keys == sups.Keys + {m};
    if i == 0 {
      AddSuppliersKeys(next, partId, inputs[1..], username);
    } else {
      AddSuppliersAt(next, partId, inputs[1..], username, i - 1);
      assert inputs[1..][i - 1] == inputs[i];
    }
  }

  /** update_part's `DELETE FROM part_suppliers WHERE part_id = ?` followed
      by the insert loop. */
  function ReplaceSuppliers(sups: map<int, Supplier>, partId: int, inputs: seq<SupplierInput>, username: string): map<int, Supplier> {
    AddSuppliers(OtherSuppliers(sups, partId), partId, inputs, username)
  }

  /** After the replacement the part's supplier rows are exactly one per
      input, in list order, and every other part's rows are as before. */
  lemma ReplaceSuppliersSpec(sups: map<int, Supplier>, partId: int, inputs: seq<SupplierInput>, username: string)
    ensures var r := ReplaceSuppliers(sups, partId, inputs, username);
      && (forall k :: k in sups && sups[k].partId != partId ==> k in r && r[k] == sups[k])
      && (forall k :: k in r && r[k].partId != partId ==> k in sups && r[k] == sups[k])
      && |set k | k in r && r[k].partId == partId| == |inputs|
      && RowsAt(r, NextRowId(OtherSuppliers(sups, partId).Keys), partId, inputs, username)
      && (forall k :: k in r && r[k].partId == partId ==>
            NextRowId(OtherSuppliers(sups, partId).Keys) <= k < NextRowId(OtherSuppliers(sups, partId).Keys) + |inputs|)
  {
    var rest := OtherSuppliers(sups, partId);
    AddSuppliersKeys(rest, partId, inputs, username);
    AddSuppliersOrder(rest, partId, inputs, username);
    var r := AddSuppliers(rest, partId, inputs, username);
    NewRowsCount(rest, r, partId);
  }

  /** When every row added to `rest` belongs to `partId` and no row of
      `rest` does, the rows of `partId` are exactly the added ones. */
  lemma NewRowsCount(rest: map<int, Supplier>, r: map<int, Supplier>, partId: int)
    requires SubMap(rest, r)
    requires forall k :: k in rest ==> rest[k].partId != partId
    requires forall k :: k in r && k !in rest ==> r[k].partId == partId
    ensures |set k | k in r && r[k].partId == partId| == |r| - |rest|
  {
    NewRowsAreMine(rest, r, partId);
    CardinalityOfDifference(rest.Keys, r.Keys);
  }

  /** When only the added rows belong to `partId`, its rows are exactly those. */
  lemma NewRowsAreMine(rest: map<int, Supplier>, r: map<int, Supplier>, partId: int)
    requires SubMap(rest, r)
    requires forall k :: k in rest ==> rest[k].partId != partId
    requires forall k :: k in r && k !in rest ==> r[k].partId == partId
    ensures (set k | k in r && r[k].partId == partId) == r.Keys - rest.Keys
  {
    forall k | k in r ensures r[k].partId == partId <==> k !in rest {
      if k in rest {
        assert r[k] == rest[k];
      }
    }
  }

  /** The size of a difference with a subset. */
  lemma CardinalityOfDifference<T>(a: set<T>, b: set<T>)
    requires a <= b
    ensures |b - a| == |b| - |a|
  {
    assert b == a + (b - a);
  }

  // ---------------------------------------------------------------- delete_vin

  /** `None` when the VIN argument is None or blank, otherwise its strip. */
  function RequestedVin(vinNumber: Option<string>): (r: Option<string>)
    ensures r.None? <==> vinNumber.None? || Strip(vinNumber.value) == ""
    ensures r.Some? ==> r.value == Strip(vinNumber.value)
  {
    if vinNumber.None? || Strip(vinNumber.value) == "" then None else Some(Strip(vinNumber.value))
  }

  /** The argument names a missing VIN: NULL, blank, or "none"/"no vin
      provided" in any letter case. */
  predicate PlaceholderVin(vin: Option<string>) {
    vin.None? || Lower(vin.value) == "none" || Lower(vin.value) == "no vin provided"
  }

  /** A row the placeholder delete matches: NULL, or blank or a placeholder
      once SQLite's TRIM has removed the spaces. */
  predicate PlaceholderRow(v: VinRow) {
    v.vinNumber.None? || SqlTrim(v.vinNumber.value) in {"", "None", "none", "No VIN provided"}
  }

  predicate InScope(v: VinRow, clientPhone: Option<string>) {
    !Truthy(clientPhone) || v.clientPhone == clientPhone
  }

  function PlaceholderTargets(vins: map<int, VinRow>, clientPhone: Option<string>): (r: set<int>)
    ensures forall k :: k in r <==> k in vins && vins[k].clientPhone == clientPhone && PlaceholderRow(vins[k])
  {
    set k | k in vins && vins[k].clientPhone == clientPhone && PlaceholderRow(vins[k])
  }

  function ExactTargets(vins: map<int, VinRow>, vin: string, clientPhone: Option<string>): (r: set<int>)
    ensures forall k :: k in r <==> k in vins && InScope(vins[k], clientPhone) && vins[k].vinNumber == Some(vin)
  {
    set k | k in vins && InScope(vins[k], clientPhone) && vins[k].vinNumber == Some(vin)
  }

  /** `LOWER(TRIM(vin_number)) = LOWER(TRIM(?))`; NULL never compares equal. */
  predicate LooseMatch(v: VinRow, vin: string) {
    v.vinNumber.Some? && Lower(SqlTrim(v.vinNumber.value)) == Lower(SqlTrim(vin))
  }

  function LooseTargets(vins: map<int, VinRow>, vin: string, clientPhone: Option<string>): (r: set<int>)
    ensures forall k :: k in r <==> k in vins && InScope(vins[k], clientPhone) && LooseMatch(vins[k], vin)
    ensures ExactTargets(vins, vin, clientPhone) <= r
  {
    set k | k in vins && InScope(vins[k], clientPhone) && LooseMatch(vins[k], vin)
  }

  /** The vins rows delete_vin removes: for a placeholder, the placeholder
      rows of the given client and none without a client; otherwise the exact
      matches, or the trimmed case-insensitive matches when there are none. */
  function DeleteVinTargets(vins: map<int, VinRow>, vinNumber: Option<string>, clientPhone: Option<string>): (r: set<int>)
    ensures r <= vins.Keys
    ensures forall k :: k in r ==> InScope(vins[k], clientPhone)
    ensures PlaceholderVin(RequestedVin(vinNumber)) && !Truthy(clientPhone) ==> r == {}
    ensures PlaceholderVin(RequestedVin(vinNumber)) && Truthy(clientPhone) ==> r == PlaceholderTargets(vins, clientPhone)
    ensures !PlaceholderVin(RequestedVin(vinNumber)) ==>
              var vin := RequestedVin(vinNumber).value;
              r == if ExactTargets(vins, vin, clientPhone) != {} then ExactTargets(vins, vin, clientPhone)
                   else LooseTargets(vins, vin, clientPhone)
  {
    var vin := RequestedVin(vinNumber);
    if PlaceholderVin(vin) then
      if Truthy(clientPhone) then PlaceholderTargets(vins, clientPhone) else {}
    else if ExactTargets(vins, vin.value, clientPhone) != {} then ExactTargets(vins, vin.value, clientPhone)
    else LooseTargets(vins, vin.value, clientPhone)
  }

  /** An exact match is never widened: when some row carries exactly the
      requested number, only such rows are deleted, and with unique VIN
      numbers that is a single row. */
  lemma ExactMatchFirst(vins: map<int, VinRow>, vinNumber: Option<string>, clientPhone: Option<string>, k: int)
    requires UniqueVins(vins)
    requires !PlaceholderVin(RequestedVin(vinNumber))
    requires k in vins && InScope(vins[k], clientPhone) && vins[k].vinNumber == RequestedVin(vinNumber)
    ensures DeleteVinTargets(vins, vinNumber, clientPhone) == {k}
  {
    var vin := RequestedVin(vinNumber).value;
    var exact := ExactTargets(vins, vin, clientPhone);
    assert k in exact;
    assert exact == {k} by {
      forall j | j in exact ensures j == k {
        assert vins[j].vinNumber == vins[k].vinNumber;
      }
    }
  }

  // ---------------------------------------------------------------- renames

  /** update_client_and_vins as one step: the client row re-keyed and
      renamed, and every vins and parts row of the old phone re-pointed. */
  function RenameClient(t: Tables, oldPhone: string, newPhone: string, newName: Option<string>, username: string): Tables {
    Tables(RenamedClients(t.clients, oldPhone, newPhone, newName, username), RepointedVins(t.vins, oldPhone, newPhone, username),
           RepointedParts(t.parts, oldPhone, newPhone, username), t.suppliers)
  }

  /** The UPDATE of the clients row. */
  function RenamedClients(clients: map<string, Client>, oldPhone: string, newPhone: string, newName: Option<string>,
                          username: string): map<string, Client> {
    if oldPhone in clients
    then (clients - {oldPhone})[newPhone := Client(newName, clients[oldPhone].createdBy, username)]
    else clients
  }

  /** The UPDATE of the vins rows of the old phone. */
  function RepointedVins(vins: map<int, VinRow>, oldPhone: string, newPhone: string, username: string): map<int, VinRow> {
    map k | k in vins ::
      if vins[k].clientPhone == Some(oldPhone) then vins[k].(clientPhone := Some(newPhone), updatedBy := username) else vins[k]
  }

  /** The UPDATE of the parts rows of the old phone. */
  function RepointedParts(parts: map<int, Part>, oldPhone: string, newPhone: string, username: string): map<int, Part> {
    map k | k in parts ::
      if parts[k].clientPhone == Some(oldPhone) then parts[k].(clientPhone := Some(newPhone), updatedBy := username) else parts[k]
  }

  /** What the client rename changes: the phone of the rows on the old
      phone, and nothing else of the vins and parts rows. */
  lemma RenameClientEffect(t: Tables, oldPhone: string, newPhone: string, newName: Option<string>, username: string)
    ensures var r := RenameClient(t, oldPhone, newPhone, newName, username);
      && r.suppliers == t.suppliers
      && r.vins.Keys == t.vins.Keys && r.parts.Keys == t.parts.Keys
      && (forall k :: k in t.vins ==> r.vins[k].vinNumber == t.vins[k].vinNumber)
      && (forall k :: k in t.vins ==>
            r.vins[k].clientPhone == (if t.vins[k].clientPhone == Some(oldPhone) then Some(newPhone) else t.vins[k].clientPhone))
      && (forall k :: k in t.parts ==> r.parts[k].vinNumber == t.parts[k].vinNumber)
      && (forall k :: k in t.parts ==>
            r.parts[k].clientPhone == (if t.parts[k].clientPhone == Some(oldPhone) then Some(newPhone) else t.parts[k].clientPhone))
  {
  }

  /** The rename keeps every foreign key resolved and the VIN numbers
      unique, leaves no row on the old phone, and moves the client's key. */
  lemma RenameClientSound(t: Tables, oldPhone: string, newPhone: string, newName: Option<string>, username: string)
    requires Integrity(t) && UniqueVins(t.vins)
    requires oldPhone in t.clients ==> newPhone == oldPhone || newPhone !in t.clients
    ensures var r := RenameClient(t, oldPhone, newPhone, newName, username);
      && Integrity(r) && UniqueVins(r.vins)
      && VinNumbers(r.vins) == VinNumbers(t.vins)
      && (oldPhone in t.clients ==> newPhone in r.clients && r.clients[newPhone].name == newName)
      && (oldPhone != newPhone ==>
            (&& oldPhone !in r.clients
             && (forall k :: k in r.vins ==> r.vins[k].clientPhone != Some(oldPhone))
             && (forall k :: k in r.parts ==> r.parts[k].clientPhone != Some(oldPhone))))
  {
    var r := RenameClient(t, oldPhone, newPhone, newName, username);
    RenameClientEffect(t, oldPhone, newPhone, newName, username);
    assert VinNumbers(r.vins) == VinNumbers(t.vins) by {
      forall v | v in VinNumbers(t.vins) ensures v in VinNumbers(r.vins) {
        var k :| k in t.vins && t.vins[k].vinNumber == Some(v);
        assert r.vins[k].vinNumber == Some(v);
      }
    }
    forall k | k in r.vins ensures VinRefOk(r.clients, r.vins[k]) {
      assert VinRefOk(t.clients, t.vins[k]);
    }
    forall k | k in r.parts ensures PartRefOk(r.clients, VinNumbers(r.vins), r.parts[k]) {
      assert PartRefOk(t.clients, VinNumbers(t.vins), t.parts[k]);
    }
    forall k | k in r.suppliers ensures SupplierRefOk(r.parts, r.suppliers[k]) {
      assert SupplierRefOk(t.parts, t.suppliers[k]);
    }
  }

  /** update_vin as one step: the row of `oldVin` takes the new number and
      details, and when the number changes every part of the old number
      follows it. */
  function RenameVin(t: Tables, oldVin: string, newVin: string, details: VinDetails, username: string): Tables {
    Tables(t.clients, RenamedVins(t.vins, oldVin, newVin, details, username),
           RenamedParts(t.parts, oldVin, newVin, username), t.suppliers)
  }

  /** What the VIN rename changes: the number, details and editor of the
      rows holding `oldVin`, and the number of its parts; nothing else. */
  lemma RenameVinEffect(t: Tables, oldVin: string, newVin: string, details: VinDetails, username: string)
    ensures var r := RenameVin(t, oldVin, newVin, details, username);
      && r.clients == t.clients && r.suppliers == t.suppliers
      && r.vins.Keys == t.vins.Keys && r.parts.Keys == t.parts.Keys
      && (forall k :: k in t.vins ==> r.vins[k].clientPhone == t.vins[k].clientPhone)
      && (forall k :: k in t.vins && t.vins[k].vinNumber == Some(oldVin) ==>
            r.vins[k].vinNumber == Some(newVin) && r.vins[k].details == details)
      && (forall k :: k in t.vins && t.vins[k].vinNumber != Some(oldVin) ==> r.vins[k] == t.vins[k])
      && (forall k :: k in t.parts ==> r.parts[k].clientPhone == t.parts[k].clientPhone)
      && (forall k :: k in t.parts ==>
            r.parts[k].vinNumber == (if t.parts[k].vinNumber == Some(oldVin) then Some(newVin) else t.parts[k].vinNumber))
  {
  }

  /** The first UPDATE of update_vin. */
  function RenamedVins(vins: map<int, VinRow>, oldVin: string, newVin: string, details: VinDetails, username: string): map<int, VinRow> {
    map k | k in vins ::
      if vins[k].vinNumber == Some(oldVin)
      then vins[k].(vinNumber := Some(newVin), details := details, updatedBy := username)
      else vins[k]
  }

  /** The second UPDATE of update_vin, issued only when the number changes. */
  function RenamedParts(parts: map<int, Part>, oldVin: string, newVin: string, username: string): map<int, Part> {
    if newVin == oldVin then parts
    else
      map k | k in parts ::
        if parts[k].vinNumber == Some(oldVin) then parts[k].(vinNumber := Some(newVin), updatedBy := username) else parts[k]
  }

  /** With the old number present and the new one free (or the same), the
      VIN rename keeps every key resolved and the numbers unique, and no
      part is left on a changed old number. */
  lemma RenameVinSound(t: Tables, oldVin: string, newVin: string, details: VinDetails, username: string)
    requires Integrity(t) && UniqueVins(t.vins)
    requires oldVin in VinNumbers(t.vins)
    requires newVin == oldVin || newVin !in VinNumbers(t.vins)
    ensures var r := RenameVin(t, oldVin, newVin, details, username);
      && Integrity(r) && UniqueVins(r.vins)
      && VinNumbers(r.vins) == VinNumbers(t.vins) - {oldVin} + {newVin}
      && (newVin != oldVin ==> forall k :: k in r.parts ==> r.parts[k].vinNumber != Some(oldVin))
      && r.vins.Keys == t.vins.Keys && r.parts.Keys == t.parts.Keys && r.suppliers == t.suppliers
  {
    var r := RenameVin(t, oldVin, newVin, details, username);
    RenameVinEffect(t, oldVin, newVin, details, username);
    RenameVinNumbers(t, oldVin, newVin, details, username);
    forall a, b | a in r.vins && b in r.vins && r.vins[a].vinNumber.Some? && r.vins[a].vinNumber == r.vins[b].vinNumber
      ensures a == b
    {
      assert t.vins[a].vinNumber == Some(oldVin) <==> t.vins[b].vinNumber == Some(oldVin);
      assert t.vins[a].vinNumber == t.vins[b].vinNumber;
    }
    RenameVinRefs(t, oldVin, newVin, details, username);
  }

  lemma RenameVinNumbers(t: Tables, oldVin: string, newVin: string, details: VinDetails, username: string)
    requires oldVin in VinNumbers(t.vins)
    ensures VinNumbers(RenameVin(t, oldVin, newVin, details, username).vins) == VinNumbers(t.vins) - {oldVin} + {newVin}
  {
    var r := RenameVin(t, oldVin, newVin, details, username);
    RenameVinEffect(t, oldVin, newVin, details, username);
    var w :| w in t.vins && t.vins[w].vinNumber == Some(oldVin);
    forall v | v in VinNumbers(t.vins) - {oldVin} ensures v in VinNumbers(r.vins) {
      var k :| k in t.vins && t.vins[k].vinNumber == Some(v);
      assert r.vins[k].vinNumber == Some(v);
    }
    assert r.vins[w].vinNumber == Some(newVin);
  }

  lemma RenameVinRefs(t: Tables, oldVin: string, newVin: string, details: VinDetails, username: string)
    requires Integrity(t)
    requires oldVin in VinNumbers(t.vins)
    requires VinNumbers(RenameVin(t, oldVin, newVin, details, username).vins) == VinNumbers(t.vins) - {oldVin} + {newVin}
    ensures Integrity(RenameVin(t, oldVin, newVin, details, username))
  {
    var r := RenameVin(t, oldVin, newVin, details, username);
    RenameVinEffect(t, oldVin, newVin, details, username);
    forall k | k in r.vins ensures VinRefOk(r.clients, r.vins[k]) {
      assert VinRefOk(t.clients, t.vins[k]);
    }
    forall k | k in r.parts ensures PartRefOk(r.clients, VinNumbers(r.vins), r.parts[k]) {
      assert PartRefOk(t.clients, VinNumbers(t.vins), t.parts[k]);
    }
    forall k | k in r.suppliers ensures SupplierRefOk(r.parts, r.suppliers[k]) {
      assert SupplierRefOk(t.parts, t.suppliers[k]);
    }
  }

  // ---------------------------------------------------------------- helpers for the operations

  const InvalidVinMessage: string := "Invalid VIN format. Must be 7, 13, or 17 alphanumeric characters."

  /** The VIN add_vin_to_client stores: whitespace removed and upper-cased,
      or NULL when the argument is missing or holds only whitespace. */
  function StoredVin(vinNo: Option<string>): (r: Option<string>)
    ensures r.Some? <==> Truthy(vinNo) && CleanVin(vinNo.value) != ""
    ensures r.Some? ==> r.value == CleanVin(vinNo.value)
  {
    if Truthy(vinNo) && CleanVin(vinNo.value) != "" then
      StripNoSpaces(CleanVin(vinNo.value));
      SanitizeInput(Some(CleanVin(vinNo.value)))
    else None
  }

  function SanitizeDetails(d: VinDetails): VinDetails {
    VinDetails(SanitizeInput(d.model), SanitizeInput(d.prodYr), SanitizeInput(d.body),
               SanitizeInput(d.engine), SanitizeInput(d.code), SanitizeInput(d.transmission))
  }

  /** The row INSERT INTO parts writes; `date_added` is the current instant. */
  function NewPart(vinNumber: Option<string>, clientPhone: Option<string>, partName: Option<string>, partNumber: Option<string>,
                   quantity: Option<int>, notes: Option<string>, username: string, now: DateTime): (p: Part)
    requires ValidDateTime(now)
    ensures p.vinNumber == vinNumber && p.clientPhone == clientPhone && p.dateAdded == Some(Format(now))
  {
    Part(vinNumber, clientPhone, partName, partNumber, quantity, notes, Some(Format(now)), username, username)
  }

  /** `x or ''` on a nullable text. */
  function OrEmpty(s: Option<string>): string {
    if Truthy(s) then s.value else ""
  }

  /** `validate_numeric(quantity, min_val=1)`; a missing quantity does not parse. */
  predicate QuantityOk(q: Option<int>) {
    ValidateNumeric(if q.Some? then Number(q.value as real) else NotNumeric, Some(1.0), None)
  }

  predicate PositiveKeys<V>(m: map<int, V>) {
    forall k :: k in m ==> k >= 1
  }

  /** One committed transaction that deleted rows: the cascade runs over
      what is left. */
  method CommitCascade(db: Database, t: Tables)
    requires db.Valid()
    requires t.clients.Keys <= db.clients.Keys
    requires SubMap(t.vins, db.vins) && SubMap(t.parts, db.parts) && SubMap(t.suppliers, db.suppliers)
    modifies db`clients, db`vins, db`parts, db`suppliers
    ensures db.Valid()
    ensures db.Data() == Cascade(t)
  {
    var r := Cascade(t);
    assert SubMap(r.vins, db.vins);
    SubMapUniqueVins(r.vins, db.vins);
    db.clients, db.vins, db.parts, db.suppliers := r.clients, r.vins, r.parts, r.suppliers;
  }

  /** `for supplier in suppliers: INSERT INTO part_suppliers ...` for an
      existing part: each row under the next rowid, in list order. */
  method InsertSuppliers(db: Database, partId: int, inputs: seq<SupplierInput>, username: string)
    requires db.Valid() && partId in db.parts
    modifies db`suppliers
    ensures db.Valid()
    ensures db.suppliers == AddSuppliers(old(db.suppliers), partId, inputs, username)
  {
    ghost var start := db.suppliers;
    var sups := db.suppliers;
    var i := 0;
    while i < |inputs|
      invariant 0 <= i <= |inputs|
      invariant AddSuppliers(sups, partId, inputs[i..], username) == AddSuppliers(start, partId, inputs, username)
    {
      assert inputs[i..][1..] == inputs[i + 1..];
      sups := sups[NextRowId(sups.Keys) := SupplierRow(partId, inputs[i], username)];
      i := i + 1;
    }
    AddedSuppliersValid(start, db.parts, partId, inputs, username);
    db.suppliers := sups;
  }

  /** The rows added for an existing part keep its foreign key resolved and
      the rowids positive. */
  lemma AddedSuppliersValid(sups: map<int, Supplier>, parts: map<int, Part>, partId: int, inputs: seq<SupplierInput>, username: string)
    requires partId in parts
    requires forall k :: k in sups ==> k >= 1 && SupplierRefOk(parts, sups[k])
    ensures var r := AddSuppliers(sups, partId, inputs, username);
            forall k :: k in r ==> k >= 1 && SupplierRefOk(parts, r[k])
  {
    NextRowIdPositive(sups.Keys);
    AddSuppliersKeys(sups, partId, inputs, username);
  }

  // ---------------------------------------------------------------- clients

  /** add_new_client. */
  method AddNewClient(db: Database, phone: Option<string>, clientName: Option<string>, username: string, now: DateTime)
    returns (r: Result<(), Error>)
    requires db.Valid() && ValidDateTime(now)
    modifies db`clients, db`log
    ensures db.Valid()
    ensures !Truthy(phone) ==> r == Err(ValueError("Phone number is required"))
    ensures Truthy(phone) && !ValidatePhone(phone) ==> r == Err(ValueError("Invalid phone number format"))
    ensures Truthy(phone) && ValidatePhone(phone) && Strip(phone.value) in old(db.clients) ==>
              r == Err(ValueError("Client with phone " + Strip(phone.value) + " already exists"))
    ensures r.Ok? <==> Truthy(phone) && ValidatePhone(phone) && Strip(phone.value) !in old(db.clients)
    ensures r.Err? ==> db.clients == old(db.clients) && db.log == old(db.log)
    ensures r.Ok? ==>
              var key := Strip(phone.value);
              var name := SanitizeInput(clientName);
              && db.clients == old(db.clients)[key := Client(name, username, username)]
              && db.log == old(db.log) + [Audit(now, username, "add_client", "clients", Some(key), None,
                                                 Some(map["phone" := VText(key), "client_name" := TextValue(name)]))]
  {
    if !Truthy(phone) {
      return Err(ValueError("Phone number is required"));
    }
    if !ValidatePhone(phone) {
      return Err(ValueError("Invalid phone number format"));
    }
    var key := SanitizeInput(phone).value;
    var name := SanitizeInput(clientName);
    if key in db.clients {
      return Err(ValueError("Client with phone " + key + " already exists"));
    }
    db.clients := db.clients[key := Client(name, username, username)];
    db.LogActivity(Some(username), "add_client", Some("clients"), Some(key), None,
                   Some(map["phone" := VText(key), "client_name" := TextValue(name)]), now);
    return Ok(());
  }

  /** delete_client: the client goes, and the foreign keys' ON DELETE
      CASCADE takes its vins, their parts and the parts' suppliers. */
  method DeleteClient(db: Database, phone: string, username: string, now: DateTime)
    returns (r: Result<(), Error>)
    requires db.Valid() && ValidDateTime(now)
    modifies db`clients, db`vins, db`parts, db`suppliers, db`log
    ensures db.Valid()
    ensures r.Err? <==> phone == ""
    ensures r.Err? ==> r.error == ValueError("Phone number is required") && db.Data() == old(db.Data()) && db.log == old(db.log)
    ensures r.Ok? ==> db.Data() == Cascade(old(db.Data()).(clients := old(db.clients) - {phone}))
    ensures r.Ok? ==> phone !in db.clients
                      && (forall k :: k in db.vins ==> db.vins[k].clientPhone != Some(phone))
                      && (forall k :: k in db.parts ==> db.parts[k].clientPhone != Some(phone))
    ensures r.Ok? ==> db.log == old(db.log) + [Audit(now, username, "delete_client", "clients", Some(phone),
                        if phone in old(db.clients)
                        then Some(map["phone" := VText(phone), "client_name" := TextValue(old(db.clients)[phone].name)])
                        else None, None)]
  {
    if phone == "" {
      return Err(ValueError("Phone number is required"));
    }
    var before := if phone in db.clients
      then Some(map["phone" := VText(phone), "client_name" := TextValue(db.clients[phone].name)])
      else None;
    CommitCascade(db, db.Data().(clients := db.clients - {phone}));
    db.LogActivity(Some(username), "delete_client", Some("clients"), Some(phone), before, None, now);
    return Ok(());
  }

  /** update_client_and_vins, as one atomic step. */
  method UpdateClientAndVins(db: Database, oldPhone: string, newPhone: string, newName: Option<string>,
                             username: string, now: DateTime)
    returns (r: Result<(), Error>)
    requires db.Valid() && ValidDateTime(now)
    modifies db`clients, db`vins, db`parts, db`log
    ensures db.Valid()
    ensures oldPhone == "" ==> r == Err(ValueError("Old phone number is required"))
    ensures oldPhone != "" && newPhone == "" ==> r == Err(ValueError("New phone number is required"))
    ensures (oldPhone != "" && newPhone != "" && oldPhone in old(db.clients) && newPhone != oldPhone && newPhone in old(db.clients))
            ==> r == Err(IntegrityError("UNIQUE constraint failed: clients.phone"))
    ensures r.Ok? <==> oldPhone != "" && newPhone != ""
                       && !(oldPhone in old(db.clients) && newPhone != oldPhone && newPhone in old(db.clients))
    ensures r.Err? ==> db.Data() == old(db.Data()) && db.log == old(db.log)
    ensures r.Ok? ==> db.Data() == RenameClient(old(db.Data()), oldPhone, newPhone, newName, username)
    ensures r.Ok? ==> db.log == old(db.log) + [Audit(now, username, "update_client", "clients", Some(newPhone),
                        Some(map["phone" := VText(oldPhone)]),
                        Some(map["phone" := VText(newPhone), "client_name" := TextValue(newName)]))]
  {
    if oldPhone == "" {
      return Err(ValueError("Old phone number is required"));
    }
    if newPhone == "" {
      return Err(ValueError("New phone number is required"));
    }
    if oldPhone in db.clients && newPhone != oldPhone && newPhone in db.clients {
      return Err(IntegrityError("UNIQUE constraint failed: clients.phone"));
    }
    ApplyClientRename(db, oldPhone, newPhone, newName, username);
    db.LogActivity(Some(username), "update_client", Some("clients"), Some(newPhone),
                   Some(map["phone" := VText(oldPhone)]),
                   Some(map["phone" := VText(newPhone), "client_name" := TextValue(newName)]), now);
    return Ok(());
  }

  /** The three UPDATE statements of update_client_and_vins. */
  method ApplyClientRename(db: Database, oldPhone: string, newPhone: string, newName: Option<string>, username: string)
    requires db.Valid()
    requires oldPhone in db.clients ==> newPhone == oldPhone || newPhone !in db.clients
    modifies db`clients, db`vins, db`parts
    ensures db.Valid()
    ensures db.Data() == RenameClient(old(db.Data()), oldPhone, newPhone, newName, username)
  {
    ghost var t := RenameClient(db.Data(), oldPhone, newPhone, newName, username);
    RenameClientSound(db.Data(), oldPhone, newPhone, newName, username);
    RenameClientEffect(db.Data(), oldPhone, newPhone, newName, username);
    db.clients, db.vins, db.parts := RenamedClients(db.clients, oldPhone, newPhone, newName, username),
                                     RepointedVins(db.vins, oldPhone, newPhone, username),
                                     RepointedParts(db.parts, oldPhone, newPhone, username);
    assert db.Data() == t;
  }

  // ---------------------------------------------------------------- inserts

  /** A new vins row whose client exists and whose number, if any, is not in
      use keeps every key resolved and the numbers unique. */
  lemma InsertVinSound(t: Tables, id: int, row: VinRow)
    requires Integrity(t) && UniqueVins(t.vins) && id !in t.vins
    requires VinRefOk(t.clients, row)
    requires row.vinNumber.None? || row.vinNumber.value !in VinNumbers(t.vins)
    ensures Integrity(t.(vins := t.vins[id := row])) && UniqueVins(t.vins[id := row])
  {
    var r := t.(vins := t.vins[id := row]);
    VinNumbersInsert(t.vins, id, row);
    forall k | k in r.parts ensures PartRefOk(r.clients, VinNumbers(r.vins), r.parts[k]) {
      assert PartRefOk(t.clients, VinNumbers(t.vins), t.parts[k]);
    }
    forall a, b | a in r.vins && b in r.vins && r.vins[a].vinNumber.Some? && r.vins[a].vinNumber == r.vins[b].vinNumber
      ensures a == b
    {
      if a != id && b != id {
        assert t.vins[a].vinNumber == t.vins[b].vinNumber;
      }
    }
  }

  /** A new part whose VIN and client exist keeps every key resolved. */
  lemma InsertPartSound(t: Tables, id: int, row: Part)
    requires Integrity(t) && id !in t.parts
    requires PartRefOk(t.clients, VinNumbers(t.vins), row)
    ensures Integrity(t.(parts := t.parts[id := row]))
  {
    var r := t.(parts := t.parts[id := row]);
    forall k | k in r.suppliers ensures SupplierRefOk(r.parts, r.suppliers[k]) {
      assert SupplierRefOk(t.parts, t.suppliers[k]);
    }
  }

  /** The wording add_vin_to_client uses for a bad VIN (move_part_to_vin and
      update_vin use InvalidVinMessage). */
  const InvalidVinOrEmptyMessage: string := "Invalid VIN format. Must be 7, 13, or 17 alphanumeric characters, or empty."

  /** add_vin_to_client accepts the VIN argument: missing, or valid once
      whitespace is removed and letters upper-cased. */
  predicate VinAccepted(vinNo: Option<string>) {
    !Truthy(vinNo) || ValidateVin(Some(CleanVin(vinNo.value)))
  }

  /** `INSERT OR IGNORE INTO vins`: the row goes in under the next rowid
      unless its non-null number is already in use. */
  method InsertVinOrIgnore(db: Database, row: VinRow) returns (id: Option<int>)
    requires db.Valid() && VinRefOk(db.clients, row)
    modifies db`vins
    ensures db.Valid()
    ensures id.None? <==> row.vinNumber.Some? && row.vinNumber.value in VinNumbers(old(db.vins))
    ensures id.None? ==> db.vins == old(db.vins)
    ensures id.Some? ==> && id.value == NextRowId(old(db.vins).Keys)
                         && db.vins == old(db.vins)[id.value := row]
                         && VinNumbers(db.vins) == VinNumbers(old(db.vins)) + (if row.vinNumber.Some? then {row.vinNumber.value} else {})
  {
    if row.vinNumber.Some? && row.vinNumber.value in VinNumbers(db.vins) {
      return None;
    }
    var k := NextRowId(db.vins.Keys);
    NextRowIdPositive(db.vins.Keys);
    InsertVinSound(db.Data(), k, row);
    VinNumbersInsert(db.vins, k, row);
    db.vins := db.vins[k := row];
    return Some(k);
  }

  /** add_vin_to_client.  `INSERT OR IGNORE` leaves the table alone when the
      cleaned VIN is already in use; the audit entry is written either way.
      The result is the new row's rowid, or None for an ignored insert. */
  method AddVinToClient(db: Database, clientPhone: Option<string>, vinNo: Option<string>, details: VinDetails,
                        username: string, now: DateTime)
    returns (r: Result<Option<int>, Error>)
    requires db.Valid() && ValidDateTime(now)
    modifies db`vins, db`log
    ensures db.Valid()
    ensures !Truthy(clientPhone) ==> r == Err(ValueError("Client phone is required"))
    ensures Truthy(clientPhone) && !ValidatePhone(clientPhone) ==> r == Err(ValueError("Invalid client phone format"))
    ensures Truthy(clientPhone) && ValidatePhone(clientPhone) && !VinAccepted(vinNo) ==>
              r == Err(ValueError(InvalidVinOrEmptyMessage))
    ensures Truthy(clientPhone) && ValidatePhone(clientPhone) && VinAccepted(vinNo) && Strip(clientPhone.value) !in old(db.clients) ==>
              r == Err(ValueError("Client with phone " + Strip(clientPhone.value) + " does not exist"))
    ensures r.Ok? <==> Truthy(clientPhone) && ValidatePhone(clientPhone) && VinAccepted(vinNo) && Strip(clientPhone.value) in old(db.clients)
    ensures r.Err? ==> db.vins == old(db.vins) && db.log == old(db.log)
    ensures r.Ok? ==>
              var phone := Strip(clientPhone.value);
              var vin := StoredVin(vinNo);
              && (r.value.None? <==> vin.Some? && vin.value in VinNumbers(old(db.vins)))
              && (r.value.None? ==> db.vins == old(db.vins))
              && (r.value.Some? ==>
                    && r.value.value == NextRowId(old(db.vins).Keys)
                    && db.vins == old(db.vins)[r.value.value := VinRow(vin, Some(phone), SanitizeDetails(details), username, username)]
                    && VinNumbers(db.vins) == VinNumbers(old(db.vins)) + (if vin.Some? then {vin.value} else {}))
              && db.log == old(db.log) + [Audit(now, username, "add_vin", "vins", vin, None,
                                                 Some(map["vin_number" := TextValue(vin), "client_phone" := VText(phone)]))]
  {
    if !Truthy(clientPhone) {
      return Err(ValueError("Client phone is required"));
    }
    if !ValidatePhone(clientPhone) {
      return Err(ValueError("Invalid client phone format"));
    }
    if Truthy(vinNo) && !ValidateVin(Some(CleanVin(vinNo.value))) {
      return Err(ValueError(InvalidVinOrEmptyMessage));
    }
    var phone := SanitizeInput(clientPhone).value;
    assert phone == Strip(clientPhone.value);
    var vin := StoredVin(vinNo);
    if phone !in db.clients {
      return Err(ValueError("Client with phone " + phone + " does not exist"));
    }
    var id := InsertVinOrIgnore(db, VinRow(vin, Some(phone), SanitizeDetails(details), username, username));
    r := Ok(id);
    db.LogActivity(Some(username), "add_vin", Some("vins"), vin, None,
                   Some(map["vin_number" := TextValue(vin), "client_phone" := VText(phone)]), now);
  }

  /** `INSERT INTO part_suppliers` of a row whose part exists: it goes in
      under the next rowid. */
  method InsertSupplier(db: Database, row: Supplier) returns (id: int)
    requires db.Valid() && SupplierRefOk(db.parts, row)
    modifies db`suppliers
    ensures db.Valid()
    ensures id == NextRowId(old(db.suppliers).Keys) && id !in old(db.suppliers)
    ensures db.suppliers == old(db.suppliers)[id := row]
  {
    id := NextRowId(db.suppliers.Keys);
    NextRowIdPositive(db.suppliers.Keys);
    db.suppliers := db.suppliers[id := row];
  }

  /** add_supplier_to_part: one supplier row for an existing part, with the
      name and delivery time stripped.  The result is the new row's id. */
  method AddSupplierToPart(db: Database, partId: Option<int>, supplierName: Option<string>, buyingPrice: Numeric,
                           sellingPrice: Numeric, deliveryTime: Option<string>, username: string, now: DateTime)
    returns (r: Result<int, Error>)
    requires db.Valid() && ValidDateTime(now)
    modifies db`suppliers, db`log
    ensures db.Valid()
    ensures partId.None? || partId.value == 0 ==> r == Err(ValueError("Part ID is required"))
    ensures partId.Some? && partId.value < 0 ==> r == Err(ValueError("Invalid Part ID"))
    ensures partId.Some? && partId.value >= 1 && !Truthy(supplierName) ==> r == Err(ValueError("Supplier name is required"))
    ensures partId.Some? && partId.value >= 1 && Truthy(supplierName) && !ValidateNumeric(buyingPrice, Some(0.0), None) ==>
              r == Err(ValueError("Invalid buying price"))
    ensures (&& partId.Some? && partId.value >= 1 && Truthy(supplierName) && ValidateNumeric(buyingPrice, Some(0.0), None)
             && !ValidateNumeric(sellingPrice, Some(0.0), None)) ==> r == Err(ValueError("Invalid selling price"))
    ensures (&& partId.Some? && partId.value >= 1 && Truthy(supplierName) && ValidateNumeric(buyingPrice, Some(0.0), None)
             && ValidateNumeric(sellingPrice, Some(0.0), None) && partId.value !in old(db.parts)) ==>
              r == Err(IntegrityError(ForeignKeyFailed))
    ensures r.Ok? <==> partId.Some? && partId.value in old(db.parts) && Truthy(supplierName)
                       && ValidateNumeric(buyingPrice, Some(0.0), None) && ValidateNumeric(sellingPrice, Some(0.0), None)
    ensures r.Err? ==> db.suppliers == old(db.suppliers) && db.log == old(db.log)
    ensures r.Ok? ==>
              var name := SanitizeInput(supplierName);
              && r.value == NextRowId(old(db.suppliers).Keys)
              && db.suppliers == old(db.suppliers)[r.value := Supplier(partId.value, name, Some(buyingPrice.x), Some(sellingPrice.x),
                                                                       SanitizeInput(deliveryTime), username, username)]
              && db.log == old(db.log) + [Audit(now, username, "add_supplier", "part_suppliers", Some(IntToString(partId.value)), None,
                                                 Some(map["part_id" := VInt(partId.value), "supplier_name" := TextValue(name)]))]
  {
    if partId.None? || partId.value == 0 {
      return Err(ValueError("Part ID is required"));
    }
    if !ValidateNumeric(Number(partId.value as real), Some(1.0), None) {
      return Err(ValueError("Invalid Part ID"));
    }
    if !Truthy(supplierName) {
      return Err(ValueError("Supplier name is required"));
    }
    var name := SanitizeInput(supplierName);
    var delivery := SanitizeInput(deliveryTime);
    if !ValidateNumeric(buyingPrice, Some(0.0), None) {
      return Err(ValueError("Invalid buying price"));
    }
    if !ValidateNumeric(sellingPrice, Some(0.0), None) {
      return Err(ValueError("Invalid selling price"));
    }
    if partId.value !in db.parts {
      return Err(IntegrityError(ForeignKeyFailed));
    }
    var id := InsertSupplier(db, Supplier(partId.value, name, Some(buyingPrice.x), Some(sellingPrice.x), delivery, username, username));
    db.LogActivity(Some(username), "add_supplier", Some("part_suppliers"), Some(IntToString(partId.value)), None,
                   Some(map["part_id" := VInt(partId.value), "supplier_name" := TextValue(name)]), now);
    return Ok(id);
  }

  /** add_part_to_vin: one part under the next id, then one supplier row per
      entry of `suppliers`, all in one transaction; a foreign key that does
      not resolve rolls the whole step back.  The result is the part's id. */
  method AddPartToVin(db: Database, vinNumber: Option<string>, clientPhone: Option<string>, partName: Option<string>,
                      partNumber: Option<string>, quantity: Option<int>, notes: Option<string>,
                      suppliers: seq<SupplierInput>, username: string, now: DateTime)
    returns (r: Result<int, Error>)
    requires db.Valid() && ValidDateTime(now)
    modifies db`parts, db`suppliers, db`log
    ensures db.Valid()
    ensures !Truthy(partName) && !Truthy(partNumber) ==> r == Err(ValueError("Part name or part number is required"))
    ensures (Truthy(partName) || Truthy(partNumber))
            && !PartRefOk(old(db.clients), VinNumbers(old(db.vins)), NewPart(vinNumber, clientPhone, partName, partNumber, quantity, notes, username, now))
            ==> r == Err(IntegrityError(ForeignKeyFailed))
    ensures r.Ok? <==> (Truthy(partName) || Truthy(partNumber))
                       && PartRefOk(old(db.clients), VinNumbers(old(db.vins)), NewPart(vinNumber, clientPhone, partName, partNumber, quantity, notes, username, now))
    ensures r.Err? ==> db.parts == old(db.parts) && db.suppliers == old(db.suppliers) && db.log == old(db.log)
    ensures r.Ok? ==>
              && r.value == NextRowId(old(db.parts).Keys) && r.value !in old(db.parts)
              && db.parts == old(db.parts)[r.value := NewPart(vinNumber, clientPhone, partName, partNumber, quantity, notes, username, now)]
              && db.suppliers == AddSuppliers(old(db.suppliers), r.value, suppliers, username)
              && FreshRows(old(db.suppliers), db.suppliers, r.value, suppliers, username)
              && db.log == old(db.log) + [Audit(now, username, "add_part", "parts", Some(IntToString(r.value)), None,
                                                 Some(map["part_name" := TextValue(partName), "part_number" := TextValue(partNumber)]))]
  {
    if !Truthy(partName) && !Truthy(partNumber) {
      return Err(ValueError("Part name or part number is required"));
    }
    var row := NewPart(vinNumber, clientPhone, partName, partNumber, quantity, notes, username, now);
    if !PartRefOk(db.clients, VinNumbers(db.vins), row) {
      return Err(IntegrityError(ForeignKeyFailed));
    }
    var id := InsertPart(db, row, suppliers, username);
    FreshPartSuppliers(old(db.parts), old(db.suppliers), id, suppliers, username);
    db.LogActivity(Some(username), "add_part", Some("parts"), Some(IntToString(id)), None,
                   Some(map["part_name" := TextValue(partName), "part_number" := TextValue(partNumber)]), now);
    return Ok(id);
  }

  /** The INSERT INTO parts under the next rowid, then the supplier rows
      under it. */
  method InsertPart(db: Database, row: Part, suppliers: seq<SupplierInput>, username: string) returns (id: int)
    requires db.Valid() && PartRefOk(db.clients, VinNumbers(db.vins), row)
    modifies db`parts, db`suppliers
    ensures db.Valid()
    ensures id == NextRowId(old(db.parts).Keys) && id !in old(db.parts)
    ensures db.parts == old(db.parts)[id := row]
    ensures db.suppliers == AddSuppliers(old(db.suppliers), id, suppliers, username)
  {
    id := NextRowId(db.parts.Keys);
    NextRowIdPositive(db.parts.Keys);
    InsertPartSound(db.Data(), id, row);
    db.parts := db.parts[id := row];
    InsertSuppliers(db, id, suppliers, username);
  }

  /** The supplier rows `r` after inserting `inputs` under the new part id
      `id`: the old rows stay, one row per input in list order, and the
      rows of `id` are exactly the added ones. */
  predicate FreshRows(before: map<int, Supplier>, r: map<int, Supplier>, id: int, inputs: seq<SupplierInput>, username: string) {
    && SubMap(before, r)
    && |r| == |before| + |inputs|
    && (forall k :: k in r ==> (r[k].partId == id <==> k !in before))
    && RowsAt(r, NextRowId(before.Keys), id, inputs, username)
  }

  /** Inserting under an id no old row refers to gives fresh rows. */
  lemma FreshPartSuppliers(parts: map<int, Part>, before: map<int, Supplier>, id: int, inputs: seq<SupplierInput>, username: string)
    requires forall k :: k in before ==> SupplierRefOk(parts, before[k])
    requires id !in parts
    ensures FreshRows(before, AddSuppliers(before, id, inputs, username), id, inputs, username)
  {
    var r := AddSuppliers(before, id, inputs, username);
    AddSuppliersKeys(before, id, inputs, username);
    AddSuppliersOrder(before, id, inputs, username);
    forall k | k in r ensures r[k].partId == id <==> k !in before {
      if k in before {
        assert SupplierRefOk(parts, before[k]);
      }
    }
  }

  /** The `part_data` dictionary safe_add_part_to_vin reads. */
  datatype PartData = PartData(name: Option<string>, number: Option<string>, quantity: Option<int>, notes: Option<string>)

  /** safe_add_part_to_vin: add_part_to_vin behind two more checks, a name
      or number and a quantity of at least 1. */
  method SafeAddPartToVin(db: Database, vinNumber: Option<string>, clientPhone: Option<string>, partData: PartData,
                          suppliers: seq<SupplierInput>, username: string, now: DateTime)
    returns (r: Result<int, Error>)
    requires db.Valid() && ValidDateTime(now)
    modifies db`parts, db`suppliers, db`log
    ensures db.Valid()
    ensures !Truthy(partData.name) && !Truthy(partData.number) ==> r == Err(ValueError("Part name or number is required"))
    ensures (Truthy(partData.name) || Truthy(partData.number)) && !QuantityOk(partData.quantity) ==>
              r == Err(ValueError("Quantity must be at least 1"))
    ensures (Truthy(partData.name) || Truthy(partData.number)) && QuantityOk(partData.quantity)
            && !PartRefOk(old(db.clients), VinNumbers(old(db.vins)),
                          NewPart(vinNumber, clientPhone, partData.name, partData.number, partData.quantity, partData.notes, username, now))
            ==> r == Err(IntegrityError(ForeignKeyFailed))
    ensures r.Ok? <==> (Truthy(partData.name) || Truthy(partData.number)) && QuantityOk(partData.quantity)
                       && PartRefOk(old(db.clients), VinNumbers(old(db.vins)),
                                    NewPart(vinNumber, clientPhone, partData.name, partData.number, partData.quantity, partData.notes, username, now))
    ensures r.Err? ==> db.parts == old(db.parts) && db.suppliers == old(db.suppliers) && db.log == old(db.log)
    ensures r.Ok? ==>
              && r.value == NextRowId(old(db.parts).Keys)
              && db.parts == old(db.parts)[r.value := NewPart(vinNumber, clientPhone, partData.name, partData.number,
                                                              partData.quantity, partData.notes, username, now)]
              && db.parts[r.value].quantity.Some? && db.parts[r.value].quantity.value >= 1
              && db.suppliers == AddSuppliers(old(db.suppliers), r.value, suppliers, username)
              && db.log == old(db.log) + [Audit(now, username, "add_part", "parts", Some(IntToString(r.value)), None,
                                                 Some(map["part_name" := TextValue(partData.name), "part_number" := TextValue(partData.number)]))]
  {
    if !Truthy(partData.name) && !Truthy(partData.number) {
      return Err(ValueError("Part name or number is required"));
    }
    if !QuantityOk(partData.quantity) {
      return Err(ValueError("Quantity must be at least 1"));
    }
    r := AddPartToVin(db, vinNumber, clientPhone, partData.name, partData.number, partData.quantity, partData.notes,
                      suppliers, username, now);
  }

  /** add_part_without_vin: add_part_to_vin with a NULL VIN. */
  method AddPartWithoutVin(db: Database, partName: Option<string>, partNumber: Option<string>, quantity: Option<int>,
                           notes: Option<string>, clientPhone: Option<string>, suppliers: seq<SupplierInput>,
                           username: string, now: DateTime)
    returns (r: Result<int, Error>)
    requires db.Valid() && ValidDateTime(now)
    modifies db`parts, db`suppliers, db`log
    ensures db.Valid()
    ensures !Truthy(partName) && !Truthy(partNumber) ==> r == Err(ValueError("Part name or part number is required"))
    ensures (Truthy(partName) || Truthy(partNumber)) && clientPhone.Some? && clientPhone.value !in old(db.clients) ==>
              r == Err(IntegrityError(ForeignKeyFailed))
    ensures r.Ok? <==> (Truthy(partName) || Truthy(partNumber)) && (clientPhone.None? || clientPhone.value in old(db.clients))
    ensures r.Err? ==> db.parts == old(db.parts) && db.suppliers == old(db.suppliers) && db.log == old(db.log)
    ensures r.Ok? ==>
              && r.value == NextRowId(old(db.parts).Keys)
              && db.parts == old(db.parts)[r.value := NewPart(None, clientPhone, partName, partNumber, quantity, notes, username, now)]
              && db.suppliers == AddSuppliers(old(db.suppliers), r.value, suppliers, username)
              && db.log == old(db.log) + [Audit(now, username, "add_part", "parts", Some(IntToString(r.value)), None,
                                                 Some(map["part_name" := TextValue(partName), "part_number" := TextValue(partNumber)]))]
  {
    r := AddPartToVin(db, None, clientPhone, partName, partNumber, quantity, notes, suppliers, username, now);
  }

  // ---------------------------------------------------------------- deletes

  /** delete_vin.  The result is the number of vins rows deleted (the parts
      and supplier rows the cascade takes are not counted).  A placeholder
      VIN without a client deletes nothing and writes no audit entry. */
  method DeleteVin(db: Database, vinNumber: Option<string>, username: string, clientPhone: Option<string>, now: DateTime)
    returns (deleted: nat)
    requires db.Valid() && ValidDateTime(now)
    modifies db`clients, db`vins, db`parts, db`suppliers, db`log
    ensures db.Valid()
    ensures deleted == |DeleteVinTargets(old(db.vins), vinNumber, clientPhone)|
    ensures PlaceholderVin(RequestedVin(vinNumber)) && !Truthy(clientPhone) ==>
              deleted == 0 && db.Data() == old(db.Data()) && db.log == old(db.log)
    ensures !(PlaceholderVin(RequestedVin(vinNumber)) && !Truthy(clientPhone)) ==>
              && VinsRemoved(old(db.Data()), db.Data(), DeleteVinTargets(old(db.vins), vinNumber, clientPhone))
              && db.log == old(db.log) + [Audit(now, username, "delete_vin", "vins", Some(OrEmpty(RequestedVin(vinNumber))), None, None)]
  {
    ghost var t := db.Data();
    var vin := RequestedVin(vinNumber);
    deleted := 0;
    if PlaceholderVin(vin) {
      if !Truthy(clientPhone) {
        return 0;
      }
      var keys := PlaceholderTargets(db.vins, clientPhone);
      RemoveVins(db, keys);
      deleted := |keys|;
    } else {
      deleted := RemoveNamedVin(db, vin.value, clientPhone);
    }
    assert db.log == old(db.log);
    db.LogActivity(Some(username), "delete_vin", Some("vins"), Some(OrEmpty(vin)), None, None, now);
  }

  /** delete_vin for a real VIN: the exact match first, the loose match
      when that deletes nothing. */
  method RemoveNamedVin(db: Database, vin: string, clientPhone: Option<string>) returns (deleted: nat)
    requires db.Valid()
    modifies db`clients, db`vins, db`parts, db`suppliers
    ensures db.Valid()
    ensures var gone := if ExactTargets(old(db.vins), vin, clientPhone) != {} then ExactTargets(old(db.vins), vin, clientPhone)
                        else LooseTargets(old(db.vins), vin, clientPhone);
            deleted == |gone| && VinsRemoved(old(db.Data()), db.Data(), gone)
  {
    ghost var t := db.Data();
    var exact := ExactTargets(db.vins, vin, clientPhone);
    RemoveVins(db, exact);
    deleted := |exact|;
    if deleted == 0 {
      assert t.(vins := t.vins - exact) == t;
      CascadeIdentity(t);
      var loose := LooseTargets(db.vins, vin, clientPhone);
      RemoveVins(db, loose);
      deleted := |loose|;
    }
  }

  /** The tables `r` after the vins rows `keys` of `t` are deleted: the
      cascade of that delete, which keeps the clients, removes exactly the
      parts on a deleted number and exactly the supplier rows of removed
      parts. */
  predicate VinsRemoved(t: Tables, r: Tables, keys: set<int>) {
    && r == Cascade(t.(vins := t.vins - keys))
    && r.clients == t.clients && r.vins == t.vins - keys
    && (forall k :: k in t.parts ==> (k in r.parts <==> !NumberOfAny(t.vins, keys, t.parts[k].vinNumber)))
    && (forall k :: k in t.suppliers ==> (k in r.suppliers <==> t.suppliers[k].partId in r.parts))
  }

  /** One `DELETE FROM vins` of the rows `keys`, with its cascade. */
  method RemoveVins(db: Database, keys: set<int>)
    requires db.Valid()
    modifies db`clients, db`vins, db`parts, db`suppliers
    ensures db.Valid()
    ensures VinsRemoved(old(db.Data()), db.Data(), keys)
  {
    DeleteVinsCascade(db.Data(), keys);
    CommitCascade(db, db.Data().(vins := db.vins - keys));
  }

  /** delete_part: the part goes, and the cascade takes its supplier rows. */
  method DeletePart(db: Database, partId: int, username: string, now: DateTime)
    returns (r: Result<(), Error>)
    requires db.Valid() && ValidDateTime(now)
    modifies db`clients, db`vins, db`parts, db`suppliers, db`log
    ensures db.Valid()
    ensures r.Err? <==> partId == 0
    ensures r.Err? ==> r.error == ValueError("Part ID is required") && db.Data() == old(db.Data()) && db.log == old(db.log)
    ensures r.Ok? ==>
              && db.clients == old(db.clients) && db.vins == old(db.vins)
              && db.parts == old(db.parts) - {partId}
              && db.suppliers == OtherSuppliers(old(db.suppliers), partId)
              && db.log == old(db.log) + [Audit(now, username, "delete_part", "parts", Some(IntToString(partId)),
                   if partId in old(db.parts)
                   then Some(map["part_name" := TextValue(old(db.parts)[partId].name),
                                 "part_number" := TextValue(old(db.parts)[partId].number)])
                   else None, None)]
  {
    if partId == 0 {
      return Err(ValueError("Part ID is required"));
    }
    var before := if partId in db.parts
      then Some(map["part_name" := TextValue(db.parts[partId].name), "part_number" := TextValue(db.parts[partId].number)])
      else None;
    DeletePartCascade(db.Data(), partId);
    CommitCascade(db, db.Data().(parts := db.parts - {partId}));
    db.LogActivity(Some(username), "delete_part", Some("parts"), Some(IntToString(partId)), before, None, now);
    return Ok(());
  }

  /** delete_supplier: the row goes (nothing references it); the audit entry
      is written whether or not the row existed. */
  method DeleteSupplier(db: Database, supplierId: int, username: string, now: DateTime)
    returns (r: Result<(), Error>)
    requires db.Valid() && ValidDateTime(now)
    modifies db`suppliers, db`log
    ensures db.Valid()
    ensures r.Err? <==> supplierId == 0
    ensures r.Err? ==> r.error == ValueError("Supplier ID is required") && db.suppliers == old(db.suppliers) && db.log == old(db.log)
    ensures r.Ok? ==>
              && db.suppliers == old(db.suppliers) - {supplierId}
              && db.log == old(db.log) + [Audit(now, username, "delete_supplier", "part_suppliers", Some(IntToString(supplierId)),
                   Some(map["supplier_name" := if supplierId in old(db.suppliers) then TextValue(old(db.suppliers)[supplierId].name) else VNull]),
                   None)]
  {
    if supplierId == 0 {
      return Err(ValueError("Supplier ID is required"));
    }
    var name := if supplierId in db.suppliers then TextValue(db.suppliers[supplierId].name) else VNull;
    db.suppliers := db.suppliers - {supplierId};
    db.LogActivity(Some(username), "delete_supplier", Some("part_suppliers"), Some(IntToString(supplierId)),
                   Some(map["supplier_name" := name]), None, now);
    return Ok(());
  }

  // ---------------------------------------------------------------- updates

  /** The part row update_part writes over an existing one. */
  function EditedPart(p: Part, partName: Option<string>, partNumber: Option<string>, quantity: Option<int>,
                      notes: Option<string>, username: string): (q: Part)
    ensures q.vinNumber == p.vinNumber && q.clientPhone == p.clientPhone && q.dateAdded == p.dateAdded
    ensures q.name == partName && q.number == partNumber && q.quantity == quantity && q.notes == notes
  {
    p.(name := partName, number := partNumber, quantity := quantity, notes := notes, updatedBy := username)
  }

  /** `DELETE FROM part_suppliers WHERE part_id = ?`: removing supplier rows
      keeps every key resolved. */
  method RemovePartSuppliers(db: Database, partId: int)
    requires db.Valid()
    modifies db`suppliers
    ensures db.Valid()
    ensures db.suppliers == OtherSuppliers(old(db.suppliers), partId)
  {
    db.suppliers := OtherSuppliers(db.suppliers, partId);
  }

  /** update_part.  For a missing part the supplier inserts fail the foreign
      key and roll everything back; with no suppliers to insert the step
      commits nothing and then fails reading the missing row's old values. */
  method UpdatePart(db: Database, partId: int, partName: Option<string>, partNumber: Option<string>, quantity: Option<int>,
                    notes: Option<string>, suppliers: seq<SupplierInput>, username: string, now: DateTime)
    returns (r: Result<int, Error>)
    requires db.Valid() && ValidDateTime(now)
    modifies db`parts, db`suppliers, db`log
    ensures db.Valid()
    ensures partId == 0 ==> r == Err(ValueError("Part ID is required"))
    ensures partId != 0 && !Truthy(partName) && !Truthy(partNumber) ==> r == Err(ValueError("Part name or part number is required"))
    ensures (&& partId != 0 && (Truthy(partName) || Truthy(partNumber)) && partId !in old(db.parts)) ==>
              r == if suppliers != [] then Err(IntegrityError(ForeignKeyFailed)) else Err(TypeError("'NoneType' object is not subscriptable"))
    ensures r.Ok? <==> partId != 0 && (Truthy(partName) || Truthy(partNumber)) && partId in old(db.parts)
    ensures r.Err? ==> db.parts == old(db.parts) && db.suppliers == old(db.suppliers) && db.log == old(db.log)
    ensures r.Ok? ==>
              var p := old(db.parts)[partId];
              && r.value == partId
              && db.parts == old(db.parts)[partId := EditedPart(p, partName, partNumber, quantity, notes, username)]
              && db.suppliers == ReplaceSuppliers(old(db.suppliers), partId, suppliers, username)
              && db.log == old(db.log) + [Audit(now, username, "update_part", "parts", Some(IntToString(partId)),
                   Some(map["part_name" := TextValue(p.name), "part_number" := TextValue(p.number), "quantity" := IntValue(p.quantity)]),
                   Some(map["part_name" := TextValue(partName), "part_number" := TextValue(partNumber), "quantity" := IntValue(quantity)]))]
  {
    if partId == 0 {
      return Err(ValueError("Part ID is required"));
    }
    if !Truthy(partName) && !Truthy(partNumber) {
      return Err(ValueError("Part name or part number is required"));
    }
    if partId !in db.parts {
      if suppliers != [] {
        return Err(IntegrityError(ForeignKeyFailed));
      }
      return Err(TypeError("'NoneType' object is not subscriptable"));
    }
    var p := db.parts[partId];
    ApplyPartEdit(db, partId, partName, partNumber, quantity, notes, suppliers, username);
    db.LogActivity(Some(username), "update_part", Some("parts"), Some(IntToString(partId)),
                   Some(map["part_name" := TextValue(p.name), "part_number" := TextValue(p.number), "quantity" := IntValue(p.quantity)]),
                   Some(map["part_name" := TextValue(partName), "part_number" := TextValue(partNumber), "quantity" := IntValue(quantity)]), now);
    return Ok(partId);
  }

  /** update_part's writes: the part row edited and its supplier rows
      replaced by one per input. */
  method ApplyPartEdit(db: Database, partId: int, partName: Option<string>, partNumber: Option<string>, quantity: Option<int>,
                       notes: Option<string>, suppliers: seq<SupplierInput>, username: string)
    requires db.Valid() && partId in db.parts
    modifies db`parts, db`suppliers
    ensures db.Valid()
    ensures db.parts == old(db.parts)[partId := EditedPart(old(db.parts)[partId], partName, partNumber, quantity, notes, username)]
    ensures db.suppliers == ReplaceSuppliers(old(db.suppliers), partId, suppliers, username)
  {
    EditPartSound(db.Data(), partId, partName, partNumber, quantity, notes, username);
    db.parts := db.parts[partId := EditedPart(db.parts[partId], partName, partNumber, quantity, notes, username)];
    RemovePartSuppliers(db, partId);
    InsertSuppliers(db, partId, suppliers, username);
  }

  /** Editing a part's descriptive columns keeps every key resolved. */
  lemma EditPartSound(t: Tables, partId: int, partName: Option<string>, partNumber: Option<string>, quantity: Option<int>,
                      notes: Option<string>, username: string)
    requires Integrity(t) && partId in t.parts
    ensures Integrity(t.(parts := t.parts[partId := EditedPart(t.parts[partId], partName, partNumber, quantity, notes, username)]))
  {
    var r := t.(parts := t.parts[partId := EditedPart(t.parts[partId], partName, partNumber, quantity, notes, username)]);
    forall k | k in r.parts ensures PartRefOk(r.clients, VinNumbers(r.vins), r.parts[k]) {
      assert PartRefOk(t.clients, VinNumbers(t.vins), t.parts[k]);
    }
    forall k | k in r.suppliers ensures SupplierRefOk(r.parts, r.suppliers[k]) {
      assert SupplierRefOk(t.parts, t.suppliers[k]);
    }
  }

  /** update_supplier: one supplier row's name, prices and delivery time;
      a missing delivery time is stored as the empty text. */
  method UpdateSupplier(db: Database, supplierId: int, supplierName: Option<string>, buyingPrice: Numeric,
                        sellingPrice: Numeric, deliveryTime: Option<string>, username: string, now: DateTime)
    returns (r: Result<(), Error>)
    requires db.Valid() && ValidDateTime(now)
    modifies db`suppliers, db`log
    ensures db.Valid()
    ensures supplierId == 0 ==> r == Err(ValueError("Supplier ID is required"))
    ensures supplierId != 0 && !Truthy(supplierName) ==> r == Err(ValueError("Supplier name is required"))
    ensures supplierId != 0 && Truthy(supplierName) && !ValidateNumeric(buyingPrice, Some(0.0), None) ==>
              r == Err(ValueError("Invalid buying price"))
    ensures (&& supplierId != 0 && Truthy(supplierName) && ValidateNumeric(buyingPrice, Some(0.0), None)
             && !ValidateNumeric(sellingPrice, Some(0.0), None)) ==> r == Err(ValueError("Invalid selling price"))
    ensures (&& supplierId != 0 && Truthy(supplierName) && ValidateNumeric(buyingPrice, Some(0.0), None)
             && ValidateNumeric(sellingPrice, Some(0.0), None) && supplierId !in old(db.suppliers)) ==>
              r == Err(ValueError("Supplier not found"))
    ensures r.Ok? <==> supplierId in old(db.suppliers) && supplierId != 0 && Truthy(supplierName)
                       && ValidateNumeric(buyingPrice, Some(0.0), None) && ValidateNumeric(sellingPrice, Some(0.0), None)
    ensures r.Err? ==> db.suppliers == old(db.suppliers) && db.log == old(db.log)
    ensures r.Ok? ==>
              var s := old(db.suppliers)[supplierId];
              && db.suppliers == old(db.suppliers)[supplierId := s.(name := supplierName, buyingPrice := Some(buyingPrice.x),
                                   sellingPrice := Some(sellingPrice.x), deliveryTime := Some(OrEmpty(deliveryTime)), updatedBy := username)]
              && db.log == old(db.log) + [Audit(now, username, "update_supplier", "part_suppliers", Some(IntToString(supplierId)),
                   Some(map["supplier_name" := TextValue(s.name), "buying_price" := RealValue(s.buyingPrice),
                            "selling_price" := RealValue(s.sellingPrice), "delivery_time" := TextValue(s.deliveryTime)]),
                   Some(map["supplier_name" := TextValue(supplierName), "buying_price" := VReal(buyingPrice.x),
                            "selling_price" := VReal(sellingPrice.x), "delivery_time" := VText(OrEmpty(deliveryTime))]))]
  {
    if supplierId == 0 {
      return Err(ValueError("Supplier ID is required"));
    }
    if !Truthy(supplierName) {
      return Err(ValueError("Supplier name is required"));
    }
    if !ValidateNumeric(buyingPrice, Some(0.0), None) {
      return Err(ValueError("Invalid buying price"));
    }
    if !ValidateNumeric(sellingPrice, Some(0.0), None) {
      return Err(ValueError("Invalid selling price"));
    }
    if supplierId !in db.suppliers {
      return Err(ValueError("Supplier not found"));
    }
    var s := db.suppliers[supplierId];
    db.suppliers := db.suppliers[supplierId := s.(name := supplierName, buyingPrice := Some(buyingPrice.x),
                      sellingPrice := Some(sellingPrice.x), deliveryTime := Some(OrEmpty(deliveryTime)), updatedBy := username)];
    db.LogActivity(Some(username), "update_supplier", Some("part_suppliers"), Some(IntToString(supplierId)),
                   Some(map["supplier_name" := TextValue(s.name), "buying_price" := RealValue(s.buyingPrice),
                            "selling_price" := RealValue(s.sellingPrice), "delivery_time" := TextValue(s.deliveryTime)]),
                   Some(map["supplier_name" := TextValue(supplierName), "buying_price" := VReal(buyingPrice.x),
                            "selling_price" := VReal(sellingPrice.x), "delivery_time" := VText(OrEmpty(deliveryTime))]), now);
    return Ok(());
  }

  /** The part row move_part_to_vin writes: the target VIN and its client. */
  function MovedPart(p: Part, vin: string, phone: Option<string>, username: string): (q: Part)
    ensures q.vinNumber == Some(vin) && q.clientPhone == phone
    ensures q.name == p.name && q.number == p.number && q.quantity == p.quantity && q.notes == p.notes
  {
    p.(vinNumber := Some(vin), clientPhone := phone, updatedBy := username)
  }

  /** move_part_to_vin.  The part takes the cleaned VIN and the client that
      owns the vins row of that VIN. */
  method MovePartToVin(db: Database, partId: int, newVin: Option<string>, username: string, now: DateTime)
    returns (r: Result<(), Error>)
    requires db.Valid() && ValidDateTime(now)
    modifies db`parts, db`log
    ensures db.Valid()
    ensures partId == 0 || !Truthy(newVin) ==> r == Err(ValueError("Part ID and target VIN are required"))
    ensures partId != 0 && Truthy(newVin) && !ValidateVin(Some(CleanVin(newVin.value))) ==> r == Err(ValueError(InvalidVinMessage))
    ensures (&& partId != 0 && Truthy(newVin) && ValidateVin(Some(CleanVin(newVin.value)))
             && partId !in old(db.parts)) ==> r == Err(ValueError("Part not found"))
    ensures (&& partId != 0 && Truthy(newVin) && ValidateVin(Some(CleanVin(newVin.value)))
             && partId in old(db.parts) && CleanVin(newVin.value) !in VinNumbers(old(db.vins))) ==> r == Err(ValueError("Target VIN not found"))
    ensures r.Ok? <==> partId != 0 && Truthy(newVin) && ValidateVin(Some(CleanVin(newVin.value)))
                       && partId in old(db.parts) && CleanVin(newVin.value) in VinNumbers(old(db.vins))
    ensures r.Err? ==> db.parts == old(db.parts) && db.log == old(db.log)
    ensures r.Ok? ==>
              var clean := CleanVin(newVin.value);
              exists w :: && w in old(db.vins) && old(db.vins)[w].vinNumber == Some(clean)
                          && db.parts == old(db.parts)[partId := MovedPart(old(db.parts)[partId], clean, old(db.vins)[w].clientPhone, username)]
                          && db.log == old(db.log) + [Audit(now, username, "move_part", "parts", Some(IntToString(partId)),
                               Some(map["vin_number" := TextValue(old(db.parts)[partId].vinNumber)]),
                               Some(map["vin_number" := VText(clean), "client_phone" := TextValue(old(db.vins)[w].clientPhone)]))]
    ensures r.Ok? ==> forall w :: w in old(db.vins) && old(db.vins)[w].vinNumber == Some(CleanVin(newVin.value)) ==>
                        db.parts[partId].clientPhone == old(db.vins)[w].clientPhone
  {
    if partId == 0 || !Truthy(newVin) {
      return Err(ValueError("Part ID and target VIN are required"));
    }
    var clean := CleanVin(newVin.value);
    if !ValidateVin(Some(clean)) {
      return Err(ValueError(InvalidVinMessage));
    }
    if partId !in db.parts {
      return Err(ValueError("Part not found"));
    }
    var p := db.parts[partId];
    if clean !in VinNumbers(db.vins) {
      return Err(ValueError("Target VIN not found"));
    }
    var w :| w in db.vins && db.vins[w].vinNumber == Some(clean);
    ApplyMove(db, partId, w, username, now);
    return Ok(());
  }

  /** The UPDATE and the log entry of move_part_to_vin, once the part and
      the vins row `w` of the target VIN are found. */
  method ApplyMove(db: Database, partId: int, w: int, username: string, now: DateTime)
    requires db.Valid() && ValidDateTime(now)
    requires partId in db.parts && w in db.vins && db.vins[w].vinNumber.Some?
    modifies db`parts, db`log
    ensures db.Valid()
    ensures db.parts == old(db.parts)[partId := MovedPart(old(db.parts)[partId], old(db.vins)[w].vinNumber.value,
                                                          old(db.vins)[w].clientPhone, username)]
    ensures db.log == old(db.log) + [Audit(now, username, "move_part", "parts", Some(IntToString(partId)),
              Some(map["vin_number" := TextValue(old(db.parts)[partId].vinNumber)]),
              Some(map["vin_number" := VText(old(db.vins)[w].vinNumber.value), "client_phone" := TextValue(old(db.vins)[w].clientPhone)]))]
  {
    var p := db.parts[partId];
    var clean := db.vins[w].vinNumber.value;
    var phone := db.vins[w].clientPhone;
    ghost var t := db.Data();
    MovePartSound(t, partId, w, username);
    db.parts := db.parts[partId := MovedPart(p, clean, phone, username)];
    assert db.Data() == t.(parts := db.parts);
    db.LogActivity(Some(username), "move_part", Some("parts"), Some(IntToString(partId)),
                   Some(map["vin_number" := TextValue(p.vinNumber)]),
                   Some(map["vin_number" := VText(clean), "client_phone" := TextValue(phone)]), now);
  }

  /** Re-pointing a part at an existing vins row and that row's client keeps
      every key resolved. */
  lemma MovePartSound(t: Tables, partId: int, w: int, username: string)
    requires Integrity(t) && partId in t.parts && w in t.vins && t.vins[w].vinNumber.Some?
    ensures Integrity(t.(parts := t.parts[partId := MovedPart(t.parts[partId], t.vins[w].vinNumber.value, t.vins[w].clientPhone, username)]))
  {
    var r := t.(parts := t.parts[partId := MovedPart(t.parts[partId], t.vins[w].vinNumber.value, t.vins[w].clientPhone, username)]);
    assert VinRefOk(t.clients, t.vins[w]);
    forall k | k in r.parts ensures PartRefOk(r.clients, VinNumbers(r.vins), r.parts[k]) {
      assert PartRefOk(t.clients, VinNumbers(t.vins), t.parts[k]);
    }
    forall k | k in r.suppliers ensures SupplierRefOk(r.parts, r.suppliers[k]) {
      assert SupplierRefOk(t.parts, t.suppliers[k]);
    }
  }

  /** The two UPDATE statements of update_vin: the vins row, then its parts. */
  method ApplyVinRename(db: Database, oldVin: string, newVin: string, details: VinDetails, username: string)
    requires db.Valid()
    requires oldVin in VinNumbers(db.vins) && (newVin == oldVin || newVin !in VinNumbers(db.vins))
    modifies db`vins, db`parts
    ensures db.Valid()
    ensures db.Data() == RenameVin(old(db.Data()), oldVin, newVin, details, username)
    ensures VinNumbers(db.vins) == VinNumbers(old(db.vins)) - {oldVin} + {newVin}
  {
    ghost var t := RenameVin(db.Data(), oldVin, newVin, details, username);
    RenameVinSound(db.Data(), oldVin, newVin, details, username);
    RenameVinEffect(db.Data(), oldVin, newVin, details, username);
    db.vins, db.parts := RenamedVins(db.vins, oldVin, newVin, details, username), RenamedParts(db.parts, oldVin, newVin, username);
    assert db.Data() == t;
  }

  /** update_vin, as one atomic step.  The details are stored as given; the
      result is the cleaned new VIN. */
  method UpdateVin(db: Database, oldVin: string, newVin: string, details: VinDetails, username: string, now: DateTime)
    returns (r: Result<string, Error>)
    requires db.Valid() && ValidDateTime(now)
    modifies db`vins, db`parts, db`log
    ensures db.Valid()
    ensures oldVin == "" ==> r == Err(ValueError("Old VIN is required"))
    ensures oldVin != "" && newVin == "" ==> r == Err(ValueError("New VIN cannot be empty"))
    ensures oldVin != "" && newVin != "" && !ValidateVin(Some(CleanVin(newVin))) ==> r == Err(ValueError(InvalidVinMessage))
    ensures (&& oldVin != "" && newVin != "" && ValidateVin(Some(CleanVin(newVin)))
             && oldVin !in VinNumbers(old(db.vins))) ==> r == Err(ValueError("VIN not found"))
    ensures (&& oldVin != "" && newVin != "" && ValidateVin(Some(CleanVin(newVin))) && oldVin in VinNumbers(old(db.vins))
             && CleanVin(newVin) != oldVin && CleanVin(newVin) in VinNumbers(old(db.vins))) ==>
              r == Err(ValueError("Another record already uses the new VIN number"))
    ensures r.Ok? <==> && oldVin != "" && newVin != "" && ValidateVin(Some(CleanVin(newVin)))
                       && oldVin in VinNumbers(old(db.vins))
                       && (CleanVin(newVin) == oldVin || CleanVin(newVin) !in VinNumbers(old(db.vins)))
    ensures r.Err? ==> db.vins == old(db.vins) && db.parts == old(db.parts) && db.log == old(db.log)
    ensures r.Ok? ==>
              && r.value == CleanVin(newVin)
              && db.Data() == RenameVin(old(db.Data()), oldVin, r.value, details, username)
              && VinNumbers(db.vins) == VinNumbers(old(db.vins)) - {oldVin} + {r.value}
              && db.log == old(db.log) + [Audit(now, username, "update_vin", "vins", Some(r.value),
                   Some(map["vin_number" := VText(oldVin)]),
                   Some(map["vin_number" := VText(r.value), "model" := TextValue(details.model), "prod_yr" := TextValue(details.prodYr),
                            "body" := TextValue(details.body), "engine" := TextValue(details.engine), "code" := TextValue(details.code),
                            "transmission" := TextValue(details.transmission)]))]
  {
    if oldVin == "" {
      return Err(ValueError("Old VIN is required"));
    }
    if newVin == "" {
      return Err(ValueError("New VIN cannot be empty"));
    }
    var clean := CleanVin(newVin);
    if !ValidateVin(Some(clean)) {
      return Err(ValueError(InvalidVinMessage));
    }
    if oldVin !in VinNumbers(db.vins) {
      return Err(ValueError("VIN not found"));
    }
    if clean != oldVin && clean in VinNumbers(db.vins) {
      return Err(ValueError("Another record already uses the new VIN number"));
    }
    ApplyVinRename(db, oldVin, clean, details, username);
    db.LogActivity(Some(username), "update_vin", Some("vins"), Some(clean),
                   Some(map["vin_number" := VText(oldVin)]),
                   Some(map["vin_number" := VText(clean), "model" := TextValue(details.model), "prod_yr" := TextValue(details.prodYr),
                            "body" := TextValue(details.body), "engine" := TextValue(details.engine), "code" := TextValue(details.code),
                            "transmission" := TextValue(details.transmission)]), now);
    return Ok(clean);
  }
}
