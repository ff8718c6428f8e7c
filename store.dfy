/** The four entity tables of the parts database (clients, vins, parts,
    part_suppliers), the users table and the activity log, as rows held in
    maps; the foreign keys that link them; and SQLite's ON DELETE CASCADE as
    an explicit function.

    Every table except clients is keyed by its integer rowid.  For parts and
    part_suppliers that is the `id INTEGER PRIMARY KEY` column itself; vins
    declares `vin_number TEXT PRIMARY KEY` without NOT NULL, so several rows
    may hold NULL there, and the model keys vins by the hidden rowid and keeps
    the non-null VIN numbers unique as an invariant. */
module Schema {
  import opened Wrappers
  import opened Text

  /** A value as it appears in an audit snapshot (a JSON-able Python value). */
  datatype Value = VNull | VInt(i: int) | VReal(r: real) | VText(s: string)

  function TextValue(s: Option<string>): (v: Value)
    ensures v.VNull? <==> s.None?
  {
    match s
    case None => VNull
    case Some(x) => VText(x)
  }

  function IntValue(n: Option<int>): (v: Value)
    ensures v.VNull? <==> n.None?
  {
    match n
    case None => VNull
    case Some(x) => VInt(x)
  }

  function RealValue(x: Option<real>): (v: Value)
    ensures v.VNull? <==> x.None?
  {
    match x
    case None => VNull
    case Some(y) => VReal(y)
  }

  /** Columns of `clients` besides the `phone` key (the timestamp columns are
      not modelled). */
  datatype Client = Client(name: Option<string>, createdBy: string, updatedBy: string)

  /** The descriptive columns of a vins row. */
  datatype VinDetails = VinDetails(
    model: Option<string>, prodYr: Option<string>, body: Option<string>,
    engine: Option<string>, code: Option<string>, transmission: Option<string>)

  datatype VinRow = VinRow(
    vinNumber: Option<string>, clientPhone: Option<string>, details: VinDetails,
    createdBy: string, updatedBy: string)

  datatype Part = Part(
    vinNumber: Option<string>, clientPhone: Option<string>,
    name: Option<string>, number: Option<string>, quantity: Option<int>,
    notes: Option<string>, dateAdded: Option<string>,
    createdBy: string, updatedBy: string)

  datatype Supplier = Supplier(
    partId: int, name: Option<string>,
    buyingPrice: Option<real>, sellingPrice: Option<real>, deliveryTime: Option<string>,
    createdBy: string, updatedBy: string)

  /** A users row; `isActive` is None while the column does not exist or
      when it holds NULL. */
  datatype User = User(
    passwordHash: string, role: Option<string>, createdDate: Option<string>,
    lastLogin: Option<string>, isActive: Option<int>)

  /** An activity_log row (its free-text `details` column is not modelled). */
  datatype LogEntry = LogEntry(
    timestamp: string, username: Option<string>, action: string,
    tableName: Option<string>, recordId: Option<string>,
    oldValues: Option<map<string, Value>>, newValues: Option<map<string, Value>>)

  datatype Tables = Tables(
    clients: map<string, Client>, vins: map<int, VinRow>,
    parts: map<int, Part>, suppliers: map<int, Supplier>)

  /** The non-null VIN numbers present in a vins table. */
  function VinNumbers(vins: map<int, VinRow>): (r: set<string>)
    ensures forall k :: k in vins && vins[k].vinNumber.Some? ==> vins[k].vinNumber.value in r
    ensures forall v :: v in r ==> exists k :: k in vins && vins[k].vinNumber == Some(v)
  {
    set k | k in vins && vins[k].vinNumber.Some? :: vins[k].vinNumber.value
  }

  /** Inserting a vins row adds its number, if any, to the numbers in use. */
  lemma VinNumbersInsert(vins: map<int, VinRow>, id: int, row: VinRow)
    requires id !in vins
    ensures VinNumbers(vins[id := row]) == VinNumbers(vins) + (if row.vinNumber.Some? then {row.vinNumber.value} else {})
  {
    var r := vins[id := row];
    forall v | v in VinNumbers(vins) ensures v in VinNumbers(r) {
      var k :| k in vins && vins[k].vinNumber == Some(v);
      assert r[k] == vins[k];
    }
    if row.vinNumber.Some? {
      assert r[id].vinNumber == row.vinNumber;
    }
  }

  // ---------------------------------------------------------------- foreign keys

  /** vins.client_phone REFERENCES clients(phone); NULL references nothing. */
  predicate VinRefOk(clients: map<string, Client>, v: VinRow) {
    v.clientPhone.None? || v.clientPhone.value in clients
  }

  /** parts.vin_number REFERENCES vins(vin_number) and parts.client_phone
      REFERENCES clients(phone). */
  predicate PartRefOk(clients: map<string, Client>, vinNumbers: set<string>, p: Part) {
    (p.vinNumber.None? || p.vinNumber.value in vinNumbers)
    && (p.clientPhone.None? || p.clientPhone.value in clients)
  }

  /** part_suppliers.part_id REFERENCES parts(id). */
  predicate SupplierRefOk(parts: map<int, Part>, s: Supplier) {
    s.partId in parts
  }

  /** Every foreign key of the four entity tables resolves. */
  predicate Integrity(t: Tables) {
    (forall k :: k in t.vins ==> VinRefOk(t.clients, t.vins[k]))
    && (forall k :: k in t.parts ==> PartRefOk(t.clients, VinNumbers(t.vins), t.parts[k]))
    && (forall k :: k in t.suppliers ==> SupplierRefOk(t.parts, t.suppliers[k]))
  }

  /** The primary-key constraint on the non-null VIN numbers. */
  predicate UniqueVins(vins: map<int, VinRow>) {
    forall a, b :: a in vins && b in vins && vins[a].vinNumber.Some? && vins[a].vinNumber == vins[b].vinNumber ==> a == b
  }

  predicate SubMap<K, V(==)>(small: map<K, V>, big: map<K, V>) {
    forall k :: k in small ==> k in big && small[k] == big[k]
  }

  // ---------------------------------------------------------------- cascade

  /** ON DELETE CASCADE after rows were removed: every row whose parent
      disappeared goes too, transitively, vins before parts before
      part_suppliers.  The result is the largest sub-database of `t` whose
      foreign keys all resolve. */
  function Cascade(t: Tables): (r: Tables)
    ensures Integrity(r)
    ensures r.clients == t.clients
    ensures SubMap(r.vins, t.vins) && SubMap(r.parts, t.parts) && SubMap(r.suppliers, t.suppliers)
    ensures forall k :: k in t.vins && VinRefOk(r.clients, t.vins[k]) ==> k in r.vins
    ensures forall k :: k in t.parts && PartRefOk(r.clients, VinNumbers(r.vins), t.parts[k]) ==> k in r.parts
    ensures forall k :: k in t.suppliers && SupplierRefOk(r.parts, t.suppliers[k]) ==> k in r.suppliers
  {
    var vins := map k | k in t.vins && VinRefOk(t.clients, t.vins[k]) :: t.vins[k];
    var numbers := VinNumbers(vins);
    var parts := map k | k in t.parts && PartRefOk(t.clients, numbers, t.parts[k]) :: t.parts[k];
    var suppliers := map k | k in t.suppliers && SupplierRefOk(parts, t.suppliers[k]) :: t.suppliers[k];
    Tables(t.clients, vins, parts, suppliers)
  }

  /** A database whose keys all resolve is left alone by the cascade. */
  lemma CascadeIdentity(t: Tables)
    requires Integrity(t)
    ensures Cascade(t) == t
  {
    var r := Cascade(t);
    forall k | k in t.vins ensures k in r.vins {
      assert VinRefOk(r.clients, t.vins[k]);
    }
    assert r.vins == t.vins;
    forall k | k in t.parts ensures k in r.parts {
      assert PartRefOk(r.clients, VinNumbers(r.vins), t.parts[k]);
    }
    assert r.parts == t.parts;
    forall k | k in t.suppliers ensures k in r.suppliers {
      assert SupplierRefOk(r.parts, t.suppliers[k]);
    }
    assert r.suppliers == t.suppliers;
  }

  /** Removing rows from a sub-database keeps a unique VIN column unique. */
  lemma SubMapUniqueVins(small: map<int, VinRow>, big: map<int, VinRow>)
    requires SubMap(small, big) && UniqueVins(big)
    ensures UniqueVins(small)
  {
  }

  /** Some vins row of the client `phone` carries the (non-null) number `vin`. */
  predicate OwnedVin(vins: map<int, VinRow>, phone: string, vin: Option<string>) {
    vin.Some? && exists k :: k in vins && vins[k].clientPhone == Some(phone) && vins[k].vinNumber == vin
  }

  /** Deleting a client removes exactly: its vins, every part
      that names it or one of its VINs, and every supplier row of those parts;
      everything else stays. */
  lemma {:induction false} DeleteClientCascade(t: Tables, phone: string)
    requires Integrity(t) && UniqueVins(t.vins)
    ensures var r := Cascade(t.(clients := t.clients - {phone}));
      && phone !in r.clients
      && (forall k :: k in t.vins ==> (k in r.vins <==> t.vins[k].clientPhone != Some(phone)))
      && (forall k :: k in t.parts ==>
            (k in r.parts <==> (t.parts[k].clientPhone != Some(phone) && !OwnedVin(t.vins, phone, t.parts[k].vinNumber))))
      && (forall k :: k in t.suppliers ==> (k in r.suppliers <==> t.suppliers[k].partId in r.parts))
  {
    var t' := t.(clients := t.clients - {phone});
    var r := Cascade(t');
    forall k | k in t.vins
      ensures k in r.vins <==> t.vins[k].clientPhone != Some(phone)
    {
      assert VinRefOk(t.clients, t.vins[k]);
    }
    forall k | k in t.parts
      ensures k in r.parts <==> (t.parts[k].clientPhone != Some(phone) && !OwnedVin(t.vins, phone, t.parts[k].vinNumber))
    {
      var p := t.parts[k];
      assert PartRefOk(t.clients, VinNumbers(t.vins), p);
      if p.vinNumber.Some? {
        var w :| w in t.vins && t.vins[w].vinNumber == p.vinNumber;
        if t.vins[w].clientPhone == Some(phone) {
          // the only row carrying this number is gone
          assert p.vinNumber.value !in VinNumbers(r.vins);
        } else {
          assert w in r.vins;
        }
      }
    }
  }

  /** The supplier rows of every part except `partId`. */
  function OtherSuppliers(sups: map<int, Supplier>, partId: int): (r: map<int, Supplier>)
    ensures SubMap(r, sups)
    ensures forall k :: k in sups ==> (k in r <==> sups[k].partId != partId)
  {
    map k | k in sups && sups[k].partId != partId :: sups[k]
  }

  /** Deleting a part removes it and its supplier rows and nothing else. */
  lemma DeletePartCascade(t: Tables, id: int)
    requires Integrity(t)
    ensures var r := Cascade(t.(parts := t.parts - {id}));
      && r.clients == t.clients && r.vins == t.vins
      && r.parts == t.parts - {id}
      && r.suppliers == OtherSuppliers(t.suppliers, id)
  {
    var t' := t.(parts := t.parts - {id});
    var r := Cascade(t');
    forall k | k in t.vins ensures k in r.vins {
      assert VinRefOk(t.clients, t.vins[k]);
    }
    assert r.vins == t.vins;
    forall k | k in t'.parts ensures k in r.parts {
      assert PartRefOk(t.clients, VinNumbers(t.vins), t.parts[k]);
    }
    assert r.parts == t'.parts;
    forall k | k in t.suppliers && t.suppliers[k].partId != id ensures k in r.suppliers {
      assert SupplierRefOk(r.parts, t.suppliers[k]);
    }
    assert r.suppliers.Keys == OtherSuppliers(t.suppliers, id).Keys;
  }

  /** Some row among `keys` carries the (non-null) number `vin`. */
  predicate NumberOfAny(vins: map<int, VinRow>, keys: set<int>, vin: Option<string>) {
    vin.Some? && exists d :: d in keys && d in vins && vins[d].vinNumber == vin
  }

  /** Deleting some vins rows removes exactly those rows, every part that
      names one of their numbers, and the supplier rows of those parts. */
  lemma {:induction false} DeleteVinsCascade(t: Tables, keys: set<int>)
    requires Integrity(t) && UniqueVins(t.vins)
    ensures var r := Cascade(t.(vins := t.vins - keys));
      && r.clients == t.clients
      && r.vins == t.vins - keys
      && (forall k :: k in t.parts ==> (k in r.parts <==> !NumberOfAny(t.vins, keys, t.parts[k].vinNumber)))
      && (forall k :: k in t.suppliers ==> (k in r.suppliers <==> t.suppliers[k].partId in r.parts))
  {
    var t' := t.(vins := t.vins - keys);
    var r := Cascade(t');
    forall k | k in t'.vins ensures k in r.vins {
      assert VinRefOk(t.clients, t.vins[k]);
    }
    assert r.vins == t'.vins;
    forall k | k in t.parts
      ensures k in r.parts <==> !NumberOfAny(t.vins, keys, t.parts[k].vinNumber)
    {
      var p := t.parts[k];
      assert PartRefOk(t.clients, VinNumbers(t.vins), p);
      if p.vinNumber.Some? {
        var w :| w in t.vins && t.vins[w].vinNumber == p.vinNumber;
        if w in keys {
          assert p.vinNumber.value !in VinNumbers(r.vins);
        } else {
          assert w in r.vins;
          assert !NumberOfAny(t.vins, keys, p.vinNumber);
        }
      }
    }
  }

  // ---------------------------------------------------------------- row ids

  lemma {:induction false} MaxOf(ids: set<int>) returns (m: int)
    requires exists y :: y in ids
    ensures m in ids && forall i :: i in ids ==> i <= m
    decreases |ids|
  {
    var x :| x in ids;
    if exists y :: y in ids - {x} {
      var rest := MaxOf(ids - {x});
      m := if x > rest then x else rest;
      assert forall i :: i in ids ==> i == x || i in ids - {x};
    } else {
      m := x;
      assert forall i :: i in ids ==> i == x || i in ids - {x};
    }
  }

  lemma MaxExists(ids: set<int>)
    requires exists y :: y in ids
    ensures exists m :: m in ids && forall i :: i in ids ==> i <= m
  {
    var m := MaxOf(ids);
  }

  /** The rowid SQLite assigns to a row inserted without one: one more than
      the largest rowid in use, or 1 in an empty table. */
  function NextRowId(ids: set<int>): (r: int)
    ensures r !in ids
    ensures forall i :: i in ids ==> i < r
    ensures ids == {} ==> r == 1
    ensures ids != {} ==> r - 1 in ids
  {
    if exists y :: y in ids then
      MaxExists(ids);
      var m :| m in ids && forall i :: i in ids ==> i <= m;
      m + 1
    else
      assert ids == {};
      1
  }

  /** After a row is inserted under the next rowid, the following one is
      one higher. */
  lemma NextRowIdAfterInsert(ids: set<int>)
    ensures NextRowId(ids + {NextRowId(ids)}) == NextRowId(ids) + 1
  {
    var m := NextRowId(ids);
    var r := NextRowId(ids + {m});
    assert m in ids + {m};
    assert r - 1 in ids + {m};
  }

  /** Row ids in a table whose ids are all positive stay positive. */
  lemma NextRowIdPositive(ids: set<int>)
    requires forall i :: i in ids ==> i >= 1
    ensures NextRowId(ids) >= 1
  {
  }
}
