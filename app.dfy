/** The logic inside app.py's page script: the client-list pagination, the
    inactivity timeout, the snapshots taken before a VIN or part is deleted
    and their replay by Undo, and the "Parts Without VIN" filter.  The
    loaded tables the page works from (pandas frames) are sequences of
    rows in load order. */
module App {
  import opened Wrappers
  import opened Text
  import opened Security
  import opened Schema
  import opened Timestamps
  import opened DbUtils
  import opened Logic

  // ---------------------------------------------------------------- pagination

  const PageSize: int := 20

  function Max(a: int, b: int): int { if a >= b then a else b }
  function Min(a: int, b: int): int { if a <= b then a else b }

  /** `max((n - 1) // 20 + 1, 1)`: the fewest pages of 20 that hold n
      clients, and never fewer than one. */
  function TotalPages(n: nat): (r: int)
    ensures r >= 1
    ensures n > 0 ==> (r - 1) * PageSize < n <= r * PageSize
    ensures n == 0 ==> r == 1
  {
    Max((n - 1) / PageSize + 1, 1)
  }

  /** `max(0, min(page, total_pages - 1))`. */
  function ClampPage(page: int, totalPages: int): (r: int)
    requires totalPages >= 1
    ensures 0 <= r < totalPages
    ensures 0 <= page < totalPages ==> r == page
    ensures page < 0 ==> r == 0
    ensures page >= totalPages ==> r == totalPages - 1
  {
    Max(0, Min(page, totalPages - 1))
  }

  /** `iloc[page * 20 : page * 20 + 20]`: at most 20 rows, those from
      position page * 20 on. */
  function PageSlice<T>(items: seq<T>, page: nat): (r: seq<T>)
    ensures |r| <= PageSize
    ensures page * PageSize + |r| <= |items| || r == []
    ensures forall i :: 0 <= i < |r| ==> r[i] == items[page * PageSize + i]
    ensures page * PageSize + PageSize <= |items| ==> |r| == PageSize
  {
    var start := page * PageSize;
    if start >= |items| then [] else items[start..Min(start + PageSize, |items|)]
  }

  /** Every client is on exactly one reachable page: client k is row
      k % 20 of page k / 20, and that page survives the clamp. */
  lemma PagesCover<T>(items: seq<T>, k: int)
    requires 0 <= k < |items|
    ensures var p := k / PageSize;
            && 0 <= p < TotalPages(|items|)
            && ClampPage(p, TotalPages(|items|)) == p
            && k % PageSize < |PageSlice(items, p)|
            && PageSlice(items, p)[k % PageSize] == items[k]
  {
    var p := k / PageSize;
    assert p * PageSize + k % PageSize == k;
  }

  /** The page the list shows after clamping is never empty. */
  lemma ClampedPageNonEmpty<T>(items: seq<T>, page: int)
    requires items != []
    ensures PageSlice(items, ClampPage(page, TotalPages(|items|))) != []
  {
    var p := ClampPage(page, TotalPages(|items|));
    assert p * PageSize < |items|;
  }

  /** The Previous Page button: `max(current_page - 1, 0)`. */
  function PreviousPage(current: int): int { Max(current - 1, 0) }

  /** The Next Page button: `min(current_page + 1, total_pages - 1)`. */
  function NextPage(current: int, totalPages: int): int { Min(current + 1, totalPages - 1) }

  /** Both buttons keep the page in range; each moves by one page when it is
      enabled, and Previous undoes Next. */
  lemma PageButtons(current: int, totalPages: int)
    requires totalPages >= 1 && 0 <= current < totalPages
    ensures 0 <= PreviousPage(current) < totalPages && 0 <= NextPage(current, totalPages) < totalPages
    ensures current != 0 ==> PreviousPage(current) == current - 1
    ensures current < totalPages - 1 ==> NextPage(current, totalPages) == current + 1
    ensures current < totalPages - 1 ==> PreviousPage(NextPage(current, totalPages)) == current
    ensures current == totalPages - 1 ==> NextPage(current, totalPages) == current
  {
  }

  // ---------------------------------------------------------------- inactivity timeout

  const WarnAfter: int := 3300
  const TimeoutAfter: int := 3600

  /** What the page does for a number of idle seconds: the warning with the
      minutes and seconds left, and whether the session is logged out. */
  datatype TimeoutView = TimeoutView(warning: Option<(int, int)>, timedOut: bool)

  /** `timedelta.seconds`: the seconds part of a duration, its whole days
      dropped. */
  function TimedeltaSeconds(elapsed: int): (r: int)
    ensures 0 <= r < 86400
    ensures (elapsed - r) % 86400 == 0
    ensures 0 <= elapsed < 86400 ==> r == elapsed
  {
    elapsed % 86400
  }

  /** The thresholds: a warning after 3300 s showing `divmod(3600 - s, 60)`
      (Python's floor division, which Dafny's division by a positive number
      agrees with), a logout after 3600 s. */
  function TimeoutFor(secs: int): (v: TimeoutView)
    ensures v.warning.Some? <==> secs > WarnAfter
    ensures v.timedOut <==> secs > TimeoutAfter
    ensures v.warning.Some? ==> v.warning.value.0 * 60 + v.warning.value.1 == TimeoutAfter - secs
    ensures v.warning.Some? ==> 0 <= v.warning.value.1 < 60
  {
    var remaining := TimeoutAfter - secs;
    TimeoutView(if secs > WarnAfter then Some((remaining / 60, remaining % 60)) else None, secs > TimeoutAfter)
  }

  /** The check as written: it reads `.seconds` of the idle time. */
  function SessionTimeoutAsWritten(elapsed: int): TimeoutView {
    TimeoutFor(TimedeltaSeconds(elapsed))
  }

  /** A session idle for a day and ten seconds is neither warned nor logged
      out, because `.seconds` drops the day. */
  lemma DayLongIdleNotTimedOut()
    ensures SessionTimeoutAsWritten(86410).warning.None?
    ensures !SessionTimeoutAsWritten(86410).timedOut
  {
  }

  /** The check on the whole idle time (`total_seconds()`). */
  function SessionTimeout(elapsed: int): TimeoutView {
    TimeoutFor(elapsed)
  }

  /** Every idle time over an hour logs out; in the five minutes before, the
      warning counts down from 4m 59s to 0m 0s. */
  lemma SessionTimeoutSpec(elapsed: int)
    ensures SessionTimeout(elapsed).timedOut <==> elapsed > TimeoutAfter
    ensures WarnAfter < elapsed <= TimeoutAfter ==>
              var w := SessionTimeout(elapsed).warning;
              w.Some? && 0 <= w.value.0 <= 4 && 0 <= w.value.1 < 60
    ensures 0 <= elapsed < 86400 ==> SessionTimeoutAsWritten(elapsed) == SessionTimeout(elapsed)
  {
  }

  // ---------------------------------------------------------------- snapshots

  /** pandas `astype(str)` of a nullable text cell. */
  function AsStr(s: Option<string>): string {
    if s.Some? then s.value else "None"
  }

  /** `int(x or 1)` on a quantity. */
  function QuantityOr1(q: Option<int>): (r: int)
    ensures r != 0
    ensures q.Some? && q.value != 0 ==> r == q.value
  {
    if q.None? || q.value == 0 then 1 else q.value
  }

  /** The part dictionary a snapshot keeps. */
  datatype PartBackup = PartBackup(
    id: int, vinNumber: Option<string>, clientPhone: Option<string>,
    name: Option<string>, number: Option<string>, quantity: int, notes: string)

  /** One part of a VIN snapshot with its supplier records. */
  datatype PartEntry = PartEntry(part: PartBackup, suppliers: seq<Supplier>)

  /** The fields of the deleted vins row. */
  datatype VinBackup = VinBackup(vinNumber: string, details: VinDetails)

  /** `st.session_state.last_delete`. */
  datatype Deletion =
    | PartDeleted(part: PartBackup, suppliers: seq<Supplier>)
    | VinDeleted(clientPhone: string, vin: VinBackup, parts: seq<PartEntry>)

  function BackupOf(id: int, p: Part): (b: PartBackup)
    ensures b.id == id && b.vinNumber == p.vinNumber && b.clientPhone == p.clientPhone
    ensures b.name == p.name && b.number == p.number && b.quantity != 0
  {
    PartBackup(id, p.vinNumber, p.clientPhone, p.name, p.number, QuantityOr1(p.quantity), OrEmpty(p.notes))
  }

  /** `df_part_suppliers[df_part_suppliers['part_id'] == id]`, in load order. */
  function SuppliersOf(dfSuppliers: seq<(int, Supplier)>, partId: int): (r: seq<Supplier>)
    ensures |r| <= |dfSuppliers|
    ensures forall s :: s in r ==> s.partId == partId
    ensures forall i :: 0 <= i < |dfSuppliers| && dfSuppliers[i].1.partId == partId ==> dfSuppliers[i].1 in r
    ensures forall s :: s in r ==> exists i :: 0 <= i < |dfSuppliers| && dfSuppliers[i].1 == s
  {
    if dfSuppliers == [] then []
    else
      var rest := SuppliersOf(dfSuppliers[1..], partId);
      assert forall i :: 1 <= i < |dfSuppliers| ==> dfSuppliers[i] == dfSuppliers[1..][i - 1];
      (if dfSuppliers[0].1.partId == partId then [dfSuppliers[0].1] else []) + rest
  }

  /** The entry a VIN snapshot keeps for one loaded part. */
  function EntryOf(row: (int, Part), dfSuppliers: seq<(int, Supplier)>): PartEntry {
    PartEntry(BackupOf(row.0, row.1), SuppliersOf(dfSuppliers, row.0))
  }

  /** `df_parts[df_parts['vin_number'].astype(str) == vin_no]`, each part
      with its suppliers, in load order. */
  function VinPartEntries(dfParts: seq<(int, Part)>, dfSuppliers: seq<(int, Supplier)>, vinNo: string): (r: seq<PartEntry>)
    ensures |r| <= |dfParts|
    ensures forall i :: 0 <= i < |dfParts| && AsStr(dfParts[i].1.vinNumber) == vinNo ==> EntryOf(dfParts[i], dfSuppliers) in r
    ensures forall e :: e in r ==> exists i :: 0 <= i < |dfParts| && AsStr(dfParts[i].1.vinNumber) == vinNo && e == EntryOf(dfParts[i], dfSuppliers)
  {
    if dfParts == [] then []
    else
      var rest := VinPartEntries(dfParts[1..], dfSuppliers, vinNo);
      assert forall i :: 1 <= i < |dfParts| ==> dfParts[i] == dfParts[1..][i - 1];
      (if AsStr(dfParts[0].1.vinNumber) == vinNo then [EntryOf(dfParts[0], dfSuppliers)] else []) + rest
  }

  /** The snapshot the Delete VIN button keeps. */
  function VinSnapshot(phone: string, row: VinRow, dfParts: seq<(int, Part)>, dfSuppliers: seq<(int, Supplier)>): Deletion {
    var vinNo := AsStr(row.vinNumber);
    VinDeleted(phone, VinBackup(vinNo, row.details), VinPartEntries(dfParts, dfSuppliers, vinNo))
  }

  /** The snapshot the Delete button of a part keeps. */
  function PartSnapshot(id: int, row: Part, dfSuppliers: seq<(int, Supplier)>): Deletion {
    PartDeleted(BackupOf(id, row), SuppliersOf(dfSuppliers, id))
  }

  /** The loaded frames list every row of the tables. */
  predicate Lists(dfParts: seq<(int, Part)>, parts: map<int, Part>) {
    forall k :: k in parts ==> (k, parts[k]) in dfParts
  }

  /** A VIN snapshot taken from frames that list the tables holds every
      part carrying that VIN, which are the parts the cascade of the delete
      removes, each with every one of its supplier rows. */
  lemma VinSnapshotCovers(parts: map<int, Part>, suppliers: map<int, Supplier>, dfParts: seq<(int, Part)>,
                          dfSuppliers: seq<(int, Supplier)>, vin: string, k: int, s: int)
    requires Lists(dfParts, parts) && forall j :: j in suppliers ==> (j, suppliers[j]) in dfSuppliers
    requires k in parts && parts[k].vinNumber == Some(vin)
    ensures EntryOf((k, parts[k]), dfSuppliers) in VinPartEntries(dfParts, dfSuppliers, vin)
    ensures s in suppliers && suppliers[s].partId == k ==> suppliers[s] in EntryOf((k, parts[k]), dfSuppliers).suppliers
  {
    var i :| 0 <= i < |dfParts| && dfParts[i] == (k, parts[k]);
    assert AsStr(dfParts[i].1.vinNumber) == vin;
    if s in suppliers && suppliers[s].partId == k {
      var j :| 0 <= j < |dfSuppliers| && dfSuppliers[j] == (s, suppliers[s]);
      assert dfSuppliers[j].1.partId == k;
    }
  }

  // ---------------------------------------------------------------- undo

  /** `float(x or 0.0)` on a stored price. */
  function PriceOrZero(p: Option<real>): real {
    if p.Some? then p.value else 0.0
  }

  /** A supplier record add_supplier_to_part accepts for an existing part. */
  predicate Restorable(s: Supplier) {
    Truthy(s.name) && PriceOrZero(s.buyingPrice) >= 0.0 && PriceOrZero(s.sellingPrice) >= 0.0
  }

  /** The row fields a restored supplier record is inserted with. */
  function RestoredInput(s: Supplier): SupplierInput {
    SupplierInput(SanitizeInput(s.name), Some(PriceOrZero(s.buyingPrice)), Some(PriceOrZero(s.sellingPrice)),
                  SanitizeInput(Some(OrEmpty(s.deliveryTime))))
  }

  /** The inserts the supplier loop of Undo performs: one per accepted
      record, in order; a rejected record is passed over. */
  function RestoreInputs(records: seq<Supplier>): seq<SupplierInput> {
    if records == [] then []
    else (if Restorable(records[0]) then [RestoredInput(records[0])] else []) + RestoreInputs(records[1..])
  }

  /** At most one insert per record, each with two non-negative prices. */
  lemma {:induction false} RestoreInputsBounds(records: seq<Supplier>)
    ensures |RestoreInputs(records)| <= |records|
    ensures forall x :: x in RestoreInputs(records) ==>
              x.buyingPrice.Some? && x.buyingPrice.value >= 0.0 && x.sellingPrice.Some? && x.sellingPrice.value >= 0.0
    decreases |records|
  {
    if records != [] {
      RestoreInputsBounds(records[1..]);
    }
  }

  /** Every accepted record is restored. */
  lemma {:induction false} RestoreInputsKeeps(records: seq<Supplier>, i: int)
    requires 0 <= i < |records| && Restorable(records[i])
    ensures RestoredInput(records[i]) in RestoreInputs(records)
    decreases |records|
  {
    if i > 0 {
      assert records[i] == records[1..][i - 1];
      RestoreInputsKeeps(records[1..], i - 1);
    }
  }

  /** When every record is acceptable, all are restored, in order. */
  lemma {:induction false} RestoreInputsAll(records: seq<Supplier>)
    requires forall i :: 0 <= i < |records| ==> Restorable(records[i])
    ensures |RestoreInputs(records)| == |records|
    ensures forall i :: 0 <= i < |records| ==> RestoreInputs(records)[i] == RestoredInput(records[i])
    decreases |records|
  {
    if records != [] {
      assert forall i :: 1 <= i < |records| ==> records[i] == records[1..][i - 1];
      RestoreInputsAll(records[1..]);
    }
  }

  /** Inserting two lists of supplier rows in turn is inserting their
      concatenation. */
  lemma {:induction false} AddSuppliersConcat(sups: map<int, Supplier>, partId: int, xs: seq<SupplierInput>,
                                              ys: seq<SupplierInput>, username: string)
    ensures AddSuppliers(sups, partId, xs + ys, username)
            == AddSuppliers(AddSuppliers(sups, partId, xs, username), partId, ys, username)
    decreases |xs|
  {
    if xs == [] {
      assert xs + ys == ys;
    } else {
      assert (xs + ys)[0] == xs[0] && (xs + ys)[1..] == xs[1..] + ys;
      AddSuppliersConcat(sups[NextRowId(sups.Keys) := SupplierRow(partId, xs[0], username)], partId, xs[1..], ys, username);
    }
  }

  /** The audit entry add_supplier_to_part writes for one inserted row. */
  function AddSupplierEntry(now: DateTime, username: string, partId: int, x: SupplierInput): (e: LogEntry)
    requires ValidDateTime(now)
    ensures e.action == "add_supplier" && e.recordId == Some(IntToString(partId))
  {
    Audit(now, username, "add_supplier", "part_suppliers", Some(IntToString(partId)), None,
          Some(map["part_id" := VInt(partId), "supplier_name" := TextValue(x.name)]))
  }

  /** The audit entries of the supplier inserts: one add_supplier entry per
      inserted row, in order. */
  function SupplierLog(now: DateTime, username: string, partId: int, inputs: seq<SupplierInput>): (r: seq<LogEntry>)
    requires ValidDateTime(now)
    ensures |r| == |inputs|
    ensures forall i :: 0 <= i < |r| ==> r[i] == AddSupplierEntry(now, username, partId, inputs[i])
    decreases |inputs|
  {
    if inputs == [] then []
    else [AddSupplierEntry(now, username, partId, inputs[0])] + SupplierLog(now, username, partId, inputs[1..])
  }

  /** The entries of two runs of inserts are those of one run over both lists. */
  lemma {:induction false} SupplierLogConcat(now: DateTime, username: string, partId: int, xs: seq<SupplierInput>, ys: seq<SupplierInput>)
    requires ValidDateTime(now)
    ensures SupplierLog(now, username, partId, xs + ys) == SupplierLog(now, username, partId, xs) + SupplierLog(now, username, partId, ys)
    decreases |xs|
  {
    if xs == [] {
      assert xs + ys == ys;
    } else {
      assert (xs + ys)[0] == xs[0] && (xs + ys)[1..] == xs[1..] + ys;
      SupplierLogConcat(now, username, partId, xs[1..], ys);
    }
  }

  /** One pass of the supplier loop: add_supplier_to_part, its failure
      swallowed. */
  method RestoreOne(db: Database, partId: int, s: Supplier, username: string, now: DateTime)
    requires db.Valid() && ValidDateTime(now) && partId in db.parts
    modifies db`suppliers, db`log
    ensures db.Valid()
    ensures db.suppliers == AddSuppliers(old(db.suppliers), partId, RestoreInputs([s]), username)
    ensures db.log == old(db.log) + SupplierLog(now, username, partId, RestoreInputs([s]))
  {
    assert partId >= 1;
    assert [s][0] == s && [s][1..] == [];
    ghost var before := db.suppliers;
    var buying, selling := Number(PriceOrZero(s.buyingPrice)), Number(PriceOrZero(s.sellingPrice));
    assert Restorable(s) <==> Truthy(s.name) && ValidateNumeric(buying, Some(0.0), None) && ValidateNumeric(selling, Some(0.0), None);
    var r := AddSupplierToPart(db, Some(partId), s.name, buying, selling, Some(OrEmpty(s.deliveryTime)), username, now);
    if Restorable(s) {
      assert RestoreInputs([s]) == [RestoredInput(s)];
      assert r.Ok?;
      assert db.suppliers == before[NextRowId(before.Keys) := SupplierRow(partId, RestoredInput(s), username)];
      assert [RestoredInput(s)][1..] == [];
      assert db.log == old(db.log) + [AddSupplierEntry(now, username, partId, RestoredInput(s))];
    } else {
      assert RestoreInputs([s]) == [];
      assert r.Err?;
    }
  }

  /** Peeling the first record off the supplier loop. */
  lemma RestoreStep(sups: map<int, Supplier>, partId: int, records: seq<Supplier>, i: int, username: string, now: DateTime)
    requires 0 <= i < |records| && ValidDateTime(now)
    ensures var one, rest := RestoreInputs([records[i]]), RestoreInputs(records[i + 1..]);
            && AddSuppliers(AddSuppliers(sups, partId, one, username), partId, rest, username)
               == AddSuppliers(sups, partId, RestoreInputs(records[i..]), username)
            && SupplierLog(now, username, partId, RestoreInputs(records[i..]))
               == SupplierLog(now, username, partId, one) + SupplierLog(now, username, partId, rest)
  {
    assert records[i..][0] == records[i] && records[i..][1..] == records[i + 1..];
    assert [records[i]][1..] == [];
    var one, rest := RestoreInputs([records[i]]), RestoreInputs(records[i + 1..]);
    var head := if Restorable(records[i]) then [RestoredInput(records[i])] else [];
    assert RestoreInputs([records[i]][1..]) == [];
    assert one == head + [] == head;
    assert RestoreInputs(records[i..]) == one + rest;
    AddSuppliersConcat(sups, partId, one, rest, username);
    SupplierLogConcat(now, username, partId, one, rest);
  }

  lemma SeqAssoc<T>(x: seq<T>, y: seq<T>, z: seq<T>)
    ensures (x + y) + z == x + (y + z)
  {
  }

  /** The supplier loop of Undo: add_supplier_to_part for each record, a
      failure swallowed. */
  method RestoreSuppliers(db: Database, partId: int, records: seq<Supplier>, username: string, now: DateTime)
    requires db.Valid() && ValidDateTime(now) && partId in db.parts
    modifies db`suppliers, db`log
    ensures db.Valid()
    ensures db.suppliers == AddSuppliers(old(db.suppliers), partId, RestoreInputs(records), username)
    ensures db.log == old(db.log) + SupplierLog(now, username, partId, RestoreInputs(records))
  {
    ghost var start := db.suppliers;
    for i := 0 to |records|
      invariant db.Valid() && partId in db.parts
      invariant AddSuppliers(db.suppliers, partId, RestoreInputs(records[i..]), username)
                == AddSuppliers(start, partId, RestoreInputs(records), username)
      invariant db.log + SupplierLog(now, username, partId, RestoreInputs(records[i..]))
                == old(db.log) + SupplierLog(now, username, partId, RestoreInputs(records))
    {
      RestoreStep(db.suppliers, partId, records, i, username, now);
      ghost var log0 := db.log;
      ghost var a := SupplierLog(now, username, partId, RestoreInputs([records[i]]));
      ghost var b := SupplierLog(now, username, partId, RestoreInputs(records[i + 1..]));
      RestoreOne(db, partId, records[i], username, now);
      SeqAssoc(log0, a, b);
    }
    assert records[|records|..] == [];
  }

  /** The VIN text Undo reads from a part backup: `str(x or '').strip()`. */
  function BackupVinText(v: Option<string>): string {
    Strip(OrEmpty(v))
  }

  /** Texts for which Undo re-adds a part without a VIN. */
  predicate NoVinText(t: string) {
    t == "" || t == "None" || t == "No VIN provided"
  }

  /** The part Undo re-creates from a backup. */
  function RestoredPart(b: PartBackup, username: string, now: DateTime): (p: Part)
    requires ValidDateTime(now)
    ensures p.vinNumber.None? <==> NoVinText(BackupVinText(b.vinNumber))
    ensures p.vinNumber.Some? ==> p.vinNumber.value == BackupVinText(b.vinNumber)
    ensures p.clientPhone == Some(OrEmpty(b.clientPhone)) && p.quantity == Some(QuantityOr1(Some(b.quantity)))
  {
    var vin := BackupVinText(b.vinNumber);
    NewPart(if NoVinText(vin) then None else Some(vin), Some(OrEmpty(b.clientPhone)), b.name, b.number,
            Some(QuantityOr1(Some(b.quantity))), Some(b.notes), username, now)
  }

  /** The audit entry add_part_to_vin writes for a re-added backup. */
  function AddPartEntry(now: DateTime, username: string, id: int, b: PartBackup): (e: LogEntry)
    requires ValidDateTime(now)
    ensures e.action == "add_part" && e.recordId == Some(IntToString(id))
  {
    Audit(now, username, "add_part", "parts", Some(IntToString(id)), None,
          Some(map["part_name" := TextValue(b.name), "part_number" := TextValue(b.number)]))
  }

  /** A backup add_part_to_vin (or add_part_without_vin) accepts: a name or
      a number, and both foreign keys of the re-created part resolve. */
  predicate Readdable(clients: map<string, Client>, vins: map<int, VinRow>, b: PartBackup, username: string, now: DateTime)
    requires ValidDateTime(now)
  {
    (Truthy(b.name) || Truthy(b.number)) && PartRefOk(clients, VinNumbers(vins), RestoredPart(b, username, now))
  }

  /** The first step of a part undo: add_part_to_vin for a backup with a
      real VIN, add_part_without_vin otherwise, with no suppliers. */
  method ReAddPart(db: Database, b: PartBackup, username: string, now: DateTime)
    returns (r: Result<int, Error>)
    requires db.Valid() && ValidDateTime(now)
    modifies db`parts, db`suppliers, db`log
    ensures db.Valid()
    ensures r.Ok? <==> Readdable(old(db.clients), old(db.vins), b, username, now)
    ensures db.suppliers == old(db.suppliers)
    ensures r.Err? ==> db.parts == old(db.parts) && db.log == old(db.log)
    ensures r.Ok? ==>
              && r.value == NextRowId(old(db.parts).Keys)
              && db.parts == old(db.parts)[r.value := RestoredPart(b, username, now)]
              && db.log == old(db.log) + [AddPartEntry(now, username, r.value, b)]
  {
    var vin := BackupVinText(b.vinNumber);
    var phone := Some(OrEmpty(b.clientPhone));
    var quantity := Some(QuantityOr1(Some(b.quantity)));
    if !NoVinText(vin) {
      r := AddPartToVin(db, Some(vin), phone, b.name, b.number, quantity, Some(b.notes), [], username, now);
    } else {
      r := AddPartWithoutVin(db, b.name, b.number, quantity, Some(b.notes), phone, [], username, now);
    }
  }

  /** Undo of a part delete: the part again, then its suppliers under the
      new id. */
  method UndoPartDelete(db: Database, b: PartBackup, records: seq<Supplier>, username: string, now: DateTime)
    returns (r: Result<int, Error>)
    requires db.Valid() && ValidDateTime(now)
    modifies db`parts, db`suppliers, db`log
    ensures db.Valid()
    ensures r.Ok? <==> Readdable(old(db.clients), old(db.vins), b, username, now)
    ensures r.Err? ==> db.parts == old(db.parts) && db.suppliers == old(db.suppliers) && db.log == old(db.log)
    ensures r.Ok? ==> PartRestored(old(db.parts), old(db.suppliers), db.parts, db.suppliers, r.value, b, records, username, now)
    ensures r.Ok? ==> db.log == old(db.log) + PartRestoreLog(now, username, r.value, b, records)
  {
    r := ReAddPart(db, b, username, now);
    if r.Ok? {
      RestoreSuppliers(db, r.value, records, username, now);
      SeqAssoc(old(db.log), [AddPartEntry(now, username, r.value, b)], SupplierLog(now, username, r.value, RestoreInputs(records)));
    }
  }

  /** The tables after a part undo: the part under the next id, and the
      accepted supplier records under it. */
  predicate PartRestored(parts0: map<int, Part>, sups0: map<int, Supplier>, parts1: map<int, Part>, sups1: map<int, Supplier>,
                         id: int, b: PartBackup, records: seq<Supplier>, username: string, now: DateTime)
    requires ValidDateTime(now)
  {
    && id == NextRowId(parts0.Keys)
    && parts1 == parts0[id := RestoredPart(b, username, now)]
    && sups1 == AddSuppliers(sups0, id, RestoreInputs(records), username)
  }

  /** The audit entries of a part undo: the add_part entry, then one
      add_supplier entry per restored supplier. */
  function PartRestoreLog(now: DateTime, username: string, id: int, b: PartBackup, records: seq<Supplier>): (r: seq<LogEntry>)
    requires ValidDateTime(now)
    ensures |r| == 1 + |RestoreInputs(records)|
    ensures r[0] == AddPartEntry(now, username, id, b)
  {
    [AddPartEntry(now, username, id, b)] + SupplierLog(now, username, id, RestoreInputs(records))
  }

  /** add_vin_to_client accepts the snapshot's phone and VIN. */
  predicate VinReaddable(clients: map<string, Client>, phone: string, vinNumber: string) {
    Truthy(Some(phone)) && ValidatePhone(Some(phone)) && VinAccepted(Some(vinNumber)) && Strip(phone) in clients
  }

  /** The vins table after add_vin_to_client re-adds a snapshot's VIN: the
      row under the next rowid, unless its cleaned number is already in use. */
  function ReAddedVins(vins: map<int, VinRow>, phone: string, vin: VinBackup, username: string): map<int, VinRow> {
    var number := StoredVin(Some(vin.vinNumber));
    if number.Some? && number.value in VinNumbers(vins) then vins
    else vins[NextRowId(vins.Keys) := VinRow(number, Some(Strip(phone)), SanitizeDetails(vin.details), username, username)]
  }

  /** The re-added table keeps every row and holds the cleaned number. */
  lemma ReAddedVinsSpec(vins: map<int, VinRow>, phone: string, vin: VinBackup, username: string)
    ensures var r := ReAddedVins(vins, phone, vin, username);
            && SubMap(vins, r) && |r| <= |vins| + 1
            && VinNumbers(r) == VinNumbers(vins) + (if StoredVin(Some(vin.vinNumber)).Some? then {StoredVin(Some(vin.vinNumber)).value} else {})
  {
    var number := StoredVin(Some(vin.vinNumber));
    if !(number.Some? && number.value in VinNumbers(vins)) {
      var k := NextRowId(vins.Keys);
      VinNumbersInsert(vins, k, VinRow(number, Some(Strip(phone)), SanitizeDetails(vin.details), username, username));
    }
  }

  /** The audit entry add_vin_to_client writes for a re-added VIN. */
  function AddVinEntry(now: DateTime, username: string, phone: string, vin: VinBackup): (e: LogEntry)
    requires ValidDateTime(now)
    ensures e.action == "add_vin" && e.recordId == StoredVin(Some(vin.vinNumber))
  {
    var number := StoredVin(Some(vin.vinNumber));
    Audit(now, username, "add_vin", "vins", number, None,
          Some(map["vin_number" := TextValue(number), "client_phone" := VText(Strip(phone))]))
  }

  /** The first step of a VIN undo: add_vin_to_client with the backup. */
  method ReAddVin(db: Database, phone: string, vin: VinBackup, username: string, now: DateTime)
    returns (r: Result<(), Error>)
    requires db.Valid() && ValidDateTime(now)
    modifies db`vins, db`log
    ensures db.Valid()
    ensures r.Ok? <==> VinReaddable(old(db.clients), phone, vin.vinNumber)
    ensures r.Err? ==> db.vins == old(db.vins) && db.log == old(db.log)
    ensures r.Ok? ==> db.vins == ReAddedVins(old(db.vins), phone, vin, username)
                      && db.log == old(db.log) + [AddVinEntry(now, username, phone, vin)]
  {
    var added := AddVinToClient(db, Some(phone), Some(vin.vinNumber), vin.details, username, now);
    r := if added.Ok? then Ok(()) else Err(added.error);
  }

  /** The part add_part_to_vin creates for a VIN snapshot entry: under the
      snapshot's VIN and phone, with `int(quantity or 1)`. */
  function VinEntryPart(phone: string, vinNumber: string, b: PartBackup, username: string, now: DateTime): (p: Part)
    requires ValidDateTime(now)
    ensures p.vinNumber == Some(vinNumber) && p.clientPhone == Some(phone)
    ensures p.name == b.name && p.number == b.number && p.quantity == Some(QuantityOr1(Some(b.quantity)))
  {
    NewPart(Some(vinNumber), Some(phone), b.name, b.number, Some(QuantityOr1(Some(b.quantity))), Some(b.notes), username, now)
  }

  /** add_part_to_vin accepts a VIN snapshot entry: a name or a number, and
      the VIN and the phone both resolve. */
  predicate EntryAddable(clients: map<string, Client>, vins: map<int, VinRow>, phone: string, vinNumber: string,
                         b: PartBackup, username: string, now: DateTime)
    requires ValidDateTime(now)
  {
    (Truthy(b.name) || Truthy(b.number)) && PartRefOk(clients, VinNumbers(vins), VinEntryPart(phone, vinNumber, b, username, now))
  }

  /** What the part loop of a VIN undo leaves: the tables, the audit
      entries written, how many parts were added, and whether every part
      was. */
  datatype Replay = Replay(parts: map<int, Part>, suppliers: map<int, Supplier>, log: seq<LogEntry>, added: nat, ok: bool)

  /** The part loop of a VIN undo over `entries`: each part under the next
      id with its accepted suppliers; the first part add_part_to_vin refuses
      ends the loop. */
  function ReplayParts(clients: map<string, Client>, vins: map<int, VinRow>, parts: map<int, Part>, sups: map<int, Supplier>,
                       phone: string, vinNumber: string, entries: seq<PartEntry>, username: string, now: DateTime): Replay
    requires ValidDateTime(now)
    decreases |entries|
  {
    if entries == [] then Replay(parts, sups, [], 0, true)
    else if !EntryAddable(clients, vins, phone, vinNumber, entries[0].part, username, now) then Replay(parts, sups, [], 0, false)
    else
      var id := NextRowId(parts.Keys);
      var inputs := RestoreInputs(entries[0].suppliers);
      var rest := ReplayParts(clients, vins, parts[id := VinEntryPart(phone, vinNumber, entries[0].part, username, now)],
                              AddSuppliers(sups, id, inputs, username), phone, vinNumber, entries[1..], username, now);
      Replay(rest.parts, rest.suppliers, [AddPartEntry(now, username, id, entries[0].part)] + SupplierLog(now, username, id, inputs) + rest.log,
             rest.added + 1, rest.ok)
  }

  /** The part loop keeps every row; the parts it adds carry the snapshot's
      VIN and phone and are as many as it reports; it adds all of the
      snapshot's parts exactly when it succeeds. */
  lemma {:induction false} ReplayPartsSpec(clients: map<string, Client>, vins: map<int, VinRow>, parts: map<int, Part>,
                                           sups: map<int, Supplier>, phone: string, vinNumber: string, entries: seq<PartEntry>,
                                           username: string, now: DateTime)
    requires ValidDateTime(now)
    ensures var rp := ReplayParts(clients, vins, parts, sups, phone, vinNumber, entries, username, now);
            && SubMap(parts, rp.parts) && SubMap(sups, rp.suppliers)
            && |rp.parts| == |parts| + rp.added
            && (rp.ok <==> rp.added == |entries|) && rp.added <= |entries|
            && (forall k :: k in rp.parts && k !in parts ==>
                  rp.parts[k].vinNumber == Some(vinNumber) && rp.parts[k].clientPhone == Some(phone))
    decreases |entries|
  {
    if entries != [] && EntryAddable(clients, vins, phone, vinNumber, entries[0].part, username, now) {
      var id := NextRowId(parts.Keys);
      var inputs := RestoreInputs(entries[0].suppliers);
      var p1 := parts[id := VinEntryPart(phone, vinNumber, entries[0].part, username, now)];
      var s1 := AddSuppliers(sups, id, inputs, username);
      AddSuppliersKeys(sups, id, inputs, username);
      ReplayPartsSpec(clients, vins, p1, s1, phone, vinNumber, entries[1..], username, now);
    }
  }

  /** One part of a VIN undo: add_part_to_vin under the backup's VIN and the
      snapshot's phone, then the part's suppliers. */
  method ReAddVinPart(db: Database, phone: string, vinNumber: string, e: PartEntry, username: string, now: DateTime)
    returns (r: Result<(), Error>)
    requires db.Valid() && ValidDateTime(now)
    modifies db`parts, db`suppliers, db`log
    ensures db.Valid()
    ensures r.Ok? <==> EntryAddable(old(db.clients), old(db.vins), phone, vinNumber, e.part, username, now)
    ensures r.Err? ==> db.parts == old(db.parts) && db.suppliers == old(db.suppliers) && db.log == old(db.log)
    ensures r.Ok? ==>
              var id := NextRowId(old(db.parts).Keys);
              && db.parts == old(db.parts)[id := VinEntryPart(phone, vinNumber, e.part, username, now)]
              && db.suppliers == AddSuppliers(old(db.suppliers), id, RestoreInputs(e.suppliers), username)
              && db.log == old(db.log) + [AddPartEntry(now, username, id, e.part)]
                           + SupplierLog(now, username, id, RestoreInputs(e.suppliers))
  {
    var pid := AddPartToVin(db, Some(vinNumber), Some(phone), e.part.name, e.part.number,
                            Some(QuantityOr1(Some(e.part.quantity))), Some(e.part.notes), [], username, now);
    if pid.Err? {
      return Err(pid.error);
    }
    RestoreSuppliers(db, pid.value, e.suppliers, username, now);
    return Ok(());
  }

  /** The tables after a VIN undo from `vins0`, `parts0`, `sups0`: the VIN
      re-added, then the part loop over the snapshot's parts. */
  predicate VinRestored(clients: map<string, Client>, vins0: map<int, VinRow>, parts0: map<int, Part>, sups0: map<int, Supplier>,
                        log0: seq<LogEntry>, vins1: map<int, VinRow>, parts1: map<int, Part>, sups1: map<int, Supplier>,
                        log1: seq<LogEntry>, ok: bool, phone: string, vin: VinBackup, entries: seq<PartEntry>,
                        username: string, now: DateTime)
    requires ValidDateTime(now)
  {
    var vins := ReAddedVins(vins0, phone, vin, username);
    var rp := ReplayParts(clients, vins, parts0, sups0, phone, vin.vinNumber, entries, username, now);
    && vins1 == vins && parts1 == rp.parts && sups1 == rp.suppliers
    && log1 == log0 + [AddVinEntry(now, username, phone, vin)] + rp.log
    && ok == rp.ok
  }

  /** Undo of a VIN delete: the VIN again, then every part of the snapshot
      under it with its suppliers.  A part that cannot be added stops the
      replay there. */
  method UndoVinDelete(db: Database, phone: string, vin: VinBackup, entries: seq<PartEntry>, username: string, now: DateTime)
    returns (r: Result<(), Error>)
    requires db.Valid() && ValidDateTime(now)
    modifies db`vins, db`parts, db`suppliers, db`log
    ensures db.Valid()
    ensures !VinReaddable(old(db.clients), phone, vin.vinNumber) ==>
              r.Err? && db.vins == old(db.vins) && db.parts == old(db.parts) && db.suppliers == old(db.suppliers) && db.log == old(db.log)
    ensures VinReaddable(old(db.clients), phone, vin.vinNumber) ==>
              VinRestored(old(db.clients), old(db.vins), old(db.parts), old(db.suppliers), old(db.log),
                          db.vins, db.parts, db.suppliers, db.log, r.Ok?, phone, vin, entries, username, now)
  {
    r := ReAddVin(db, phone, vin, username, now);
    if r.Err? {
      return;
    }
    r := ReAddVinParts(db, phone, vin.vinNumber, entries, username, now);
    ghost var rp := ReplayParts(old(db.clients), db.vins, old(db.parts), old(db.suppliers), phone, vin.vinNumber, entries, username, now);
    SeqAssoc(old(db.log), [AddVinEntry(now, username, phone, vin)], rp.log);
  }

  /** The part loop of a VIN undo: ReAddVinPart for each entry, stopping at
      the first that fails. */
  method ReAddVinParts(db: Database, phone: string, vinNumber: string, entries: seq<PartEntry>, username: string, now: DateTime)
    returns (r: Result<(), Error>)
    requires db.Valid() && ValidDateTime(now)
    modifies db`parts, db`suppliers, db`log
    ensures db.Valid()
    ensures var rp := ReplayParts(old(db.clients), old(db.vins), old(db.parts), old(db.suppliers), phone, vinNumber, entries, username, now);
            db.parts == rp.parts && db.suppliers == rp.suppliers && db.log == old(db.log) + rp.log && (r.Ok? <==> rp.ok)
  {
    ghost var rp := ReplayParts(db.clients, db.vins, db.parts, db.suppliers, phone, vinNumber, entries, username, now);
    assert entries[0..] == entries;
    r := Ok(());
    for j := 0 to |entries|
      invariant db.Valid() && r.Ok?
      invariant ReplayRemains(db.clients, db.vins, db.parts, db.suppliers, db.log, phone, vinNumber, entries[j..], username, now,
                              rp, old(db.log))
    {
      ReplayNext(db.clients, db.vins, db.parts, db.suppliers, db.log, phone, vinNumber, entries, j, username, now, rp, old(db.log));
      r := ReAddVinPart(db, phone, vinNumber, entries[j], username, now);
      if r.Err? {
        return;
      }
    }
    assert entries[|entries|..] == [];
  }

  /** The loop invariant of ReAddVinParts: replaying the remaining entries
      from the current tables and log ends where the whole replay does. */
  predicate ReplayRemains(clients: map<string, Client>, vins: map<int, VinRow>, parts: map<int, Part>, sups: map<int, Supplier>,
                          log: seq<LogEntry>, phone: string, vinNumber: string, rest: seq<PartEntry>, username: string,
                          now: DateTime, rp: Replay, log0: seq<LogEntry>)
    requires ValidDateTime(now)
  {
    var cur := ReplayParts(clients, vins, parts, sups, phone, vinNumber, rest, username, now);
    cur.parts == rp.parts && cur.suppliers == rp.suppliers && cur.ok == rp.ok && log + cur.log == log0 + rp.log
  }

  /** One step of the part loop: a refused entry ends the replay where it
      stands; an accepted one moves the invariant to the next entry. */
  lemma ReplayNext(clients: map<string, Client>, vins: map<int, VinRow>, parts: map<int, Part>, sups: map<int, Supplier>,
                   log: seq<LogEntry>, phone: string, vinNumber: string, entries: seq<PartEntry>, j: int, username: string,
                   now: DateTime, rp: Replay, log0: seq<LogEntry>)
    requires ValidDateTime(now) && 0 <= j < |entries|
    requires ReplayRemains(clients, vins, parts, sups, log, phone, vinNumber, entries[j..], username, now, rp, log0)
    ensures !EntryAddable(clients, vins, phone, vinNumber, entries[j].part, username, now) ==>
              parts == rp.parts && sups == rp.suppliers && log == log0 + rp.log && !rp.ok
    ensures EntryAddable(clients, vins, phone, vinNumber, entries[j].part, username, now) ==>
              var id := NextRowId(parts.Keys);
              var inputs := RestoreInputs(entries[j].suppliers);
              ReplayRemains(clients, vins, parts[id := VinEntryPart(phone, vinNumber, entries[j].part, username, now)],
                            AddSuppliers(sups, id, inputs, username),
                            log + [AddPartEntry(now, username, id, entries[j].part)] + SupplierLog(now, username, id, inputs),
                            phone, vinNumber, entries[j + 1..], username, now, rp, log0)
  {
    assert entries[j..][0] == entries[j] && entries[j..][1..] == entries[j + 1..];
    if EntryAddable(clients, vins, phone, vinNumber, entries[j].part, username, now) {
      var id := NextRowId(parts.Keys);
      var inputs := RestoreInputs(entries[j].suppliers);
      var added := [AddPartEntry(now, username, id, entries[j].part)] + SupplierLog(now, username, id, inputs);
      var next := ReplayParts(clients, vins, parts[id := VinEntryPart(phone, vinNumber, entries[j].part, username, now)],
                              AddSuppliers(sups, id, inputs, username), phone, vinNumber, entries[j + 1..], username, now);
      SeqAssoc(log, added, next.log);
      SeqAssoc(log, [AddPartEntry(now, username, id, entries[j].part)], SupplierLog(now, username, id, inputs));
    }
  }

  /** The undo slot of the session. */
  class UndoSlot {
    var lastDelete: Option<Deletion>

    constructor ()
      ensures lastDelete == None
    {
      lastDelete := None;
    }
  }

  /** The Undo button: replay the snapshot, then empty the slot.  A failure
      surfaces as the error message and keeps the snapshot. */
  method Undo(db: Database, slot: UndoSlot, username: string, now: DateTime)
    returns (r: Result<(), Error>)
    requires db.Valid() && ValidDateTime(now) && slot.lastDelete.Some?
    modifies db`vins, db`parts, db`suppliers, db`log, slot`lastDelete
    ensures db.Valid()
    ensures r.Ok? ==> slot.lastDelete == None
    ensures r.Err? ==> slot.lastDelete == old(slot.lastDelete)
    ensures old(slot.lastDelete.value).PartDeleted? ==>
              var b := old(slot.lastDelete.value).part;
              var records := old(slot.lastDelete.value).suppliers;
              var id := NextRowId(old(db.parts).Keys);
              && db.vins == old(db.vins)
              && (r.Ok? <==> Readdable(old(db.clients), old(db.vins), b, username, now))
              && (r.Err? ==> db.parts == old(db.parts) && db.suppliers == old(db.suppliers) && db.log == old(db.log))
              && (r.Ok? ==> PartRestored(old(db.parts), old(db.suppliers), db.parts, db.suppliers, id, b, records, username, now)
                            && db.log == old(db.log) + PartRestoreLog(now, username, id, b, records))
    ensures old(slot.lastDelete.value).VinDeleted? ==>
              var d := old(slot.lastDelete.value);
              && (!VinReaddable(old(db.clients), d.clientPhone, d.vin.vinNumber) ==>
                    r.Err? && db.vins == old(db.vins) && db.parts == old(db.parts) && db.suppliers == old(db.suppliers)
                    && db.log == old(db.log))
              && (VinReaddable(old(db.clients), d.clientPhone, d.vin.vinNumber) ==>
                    VinRestored(old(db.clients), old(db.vins), old(db.parts), old(db.suppliers), old(db.log),
                                db.vins, db.parts, db.suppliers, db.log, r.Ok?, d.clientPhone, d.vin, d.parts, username, now))
  {
    match slot.lastDelete.value {
      case PartDeleted(b, records) =>
        var p := UndoPartDelete(db, b, records, username, now);
        if p.Err? {
          return Err(p.error);
        }
      case VinDeleted(phone, vin, entries) =>
        r := UndoVinDelete(db, phone, vin, entries, username, now);
        if r.Err? {
          return;
        }
    }
    slot.lastDelete := None;
    return Ok(());
  }

  /** The Delete button of a part: the snapshot is stored first, then the
      part is deleted, so a failed delete still leaves it in the slot. */
  method DeletePartWithUndo(db: Database, slot: UndoSlot, partId: int, row: Part, dfSuppliers: seq<(int, Supplier)>,
                            username: string, now: DateTime)
    returns (r: Result<(), Error>)
    requires db.Valid() && ValidDateTime(now)
    modifies db`clients, db`vins, db`parts, db`suppliers, db`log, slot`lastDelete
    ensures db.Valid()
    ensures slot.lastDelete == Some(PartSnapshot(partId, row, dfSuppliers))
    ensures r.Err? <==> partId == 0
    ensures r.Err? ==> r.error == ValueError("Part ID is required") && db.Data() == old(db.Data()) && db.log == old(db.log)
    ensures r.Ok? ==>
              && db.clients == old(db.clients) && db.vins == old(db.vins)
              && db.parts == old(db.parts) - {partId} && db.suppliers == OtherSuppliers(old(db.suppliers), partId)
              && db.log == old(db.log) + [Audit(now, username, "delete_part", "parts", Some(IntToString(partId)),
                   if partId in old(db.parts)
                   then Some(map["part_name" := TextValue(old(db.parts)[partId].name),
                                 "part_number" := TextValue(old(db.parts)[partId].number)])
                   else None, None)]
  {
    slot.lastDelete := Some(PartSnapshot(partId, row, dfSuppliers));
    r := DeletePart(db, partId, username, now);
  }

  /** The Delete VIN button: the parts of the VIN and their suppliers are
      read from the loaded frames, the VIN is deleted, then the snapshot is
      stored.  A placeholder VIN deletes nothing, since no client phone is
      passed; any other VIN deletes its exact (or else loose) matches with
      their cascade. */
  method DeleteVinWithUndo(db: Database, slot: UndoSlot, phone: string, row: VinRow, dfParts: seq<(int, Part)>,
                           dfSuppliers: seq<(int, Supplier)>, username: string, now: DateTime)
    requires db.Valid() && ValidDateTime(now)
    modifies db`clients, db`vins, db`parts, db`suppliers, db`log, slot`lastDelete
    ensures db.Valid()
    ensures slot.lastDelete == Some(VinSnapshot(phone, row, dfParts, dfSuppliers))
    ensures PlaceholderVin(RequestedVin(Some(AsStr(row.vinNumber)))) ==>
              db.Data() == old(db.Data()) && db.log == old(db.log)
    ensures !PlaceholderVin(RequestedVin(Some(AsStr(row.vinNumber)))) ==>
              && VinsRemoved(old(db.Data()), db.Data(), DeleteVinTargets(old(db.vins), Some(AsStr(row.vinNumber)), None))
              && db.log == old(db.log) + [Audit(now, username, "delete_vin", "vins",
                                                Some(OrEmpty(RequestedVin(Some(AsStr(row.vinNumber))))), None, None)]
  {
    var _ := DeleteVin(db, Some(AsStr(row.vinNumber)), username, None, now);
    slot.lastDelete := Some(VinSnapshot(phone, row, dfParts, dfSuppliers));
  }

  // ---------------------------------------------------------------- parts without VIN

  /** The "Parts Without VIN" filter of the client page: the client's parts
      whose VIN is NULL or, stripped, empty or a placeholder. */
  predicate PartWithoutVin(p: Part, phone: string) {
    AsStr(p.clientPhone) == phone
    && (p.vinNumber.None? || NoVinText(Strip(AsStr(p.vinNumber))))
  }

  /** Undo re-adds a part without a VIN exactly when the client page lists
      it under "Parts Without VIN", and a part so re-added is listed there
      again for its client. */
  lemma WithoutVinAgreesWithUndo(id: int, p: Part, username: string, now: DateTime)
    requires ValidDateTime(now)
    ensures PartWithoutVin(p, AsStr(p.clientPhone)) <==> NoVinText(BackupVinText(BackupOf(id, p).vinNumber))
    ensures var q := RestoredPart(BackupOf(id, p), username, now);
            q.vinNumber.None? ==> PartWithoutVin(q, OrEmpty(p.clientPhone))
  {
    if p.vinNumber.Some? && p.vinNumber.value == "" {
      StripNoSpaces("");
    }
    if p.vinNumber.None? {
      StripNoSpaces("");
    }
  }
}
