/** The persistence side of `Models\Model`: the SQL text and placeholder
    bindings that `create`, `update`, `delete`, `deleteMany`, `find` and
    `getAll` build, and the shaping of what the database answers. The
    database is an oracle: whether it accepts a statement, which rows a
    statement yields and the last inserted id are parameters. */
module ModelQuery {
  import opened Php
  import opened Text
  import opened PhpArray
  import opened Model

  /** What is handed to `execute`: nothing, a named-placeholder array, or a positional list. */
  datatype Params = NoParams | Named(bindings: Arr) | Positional(values: seq<Value>)

  datatype Statement = Statement(sql: string, params: Params)

  /** The database as the framework sees it. `prepares(sql)` is false exactly
      when `prepare`/`query` returns a falsy handle; `rows(s)` is what
      `fetchAll` returns after executing `s` (its length is `rowCount()`). */
  datatype Db = Db(prepares: string -> bool, rows: Statement -> seq<Arr>, lastInsertId: Value)

  /** The statements executed, in order, and what the call returned or threw. */
  datatype Outcome<T> = Outcome(executed: seq<Statement>, result: Result<T>)

  const PrepareFailed := "Unable to prepare PDO statement."

  /** The argument of `find`: one id, or an array of ids. */
  datatype Ids = Single(id: Value) | Many(ids: seq<Value>)

  /** What `find` returns: null, one instance, or an array of instances. */
  datatype Found = NotFound | FoundOne(instance: Instance) | FoundMany(instances: seq<Instance>)

  /** An entry of `deleteMany`'s argument: a plain id or a model instance. */
  datatype IdEntry = RawId(id: Value) | ModelRef(instance: Instance)

  /** `':' . $key` for every key. */
  function Placeholders(keys: seq<string>): (ps: seq<string>)
    ensures |ps| == |keys|
    ensures forall i :: 0 <= i < |keys| ==> ps[i] == ":" + keys[i]
  {
    seq(|keys|, i requires 0 <= i < |keys| => ":" + keys[i])
  }

  lemma PlaceholderInjective(k1: string, k2: string)
    requires ":" + k1 == ":" + k2
    ensures k1 == k2
  {
    assert k1 == (":" + k1)[1..];
    assert k2 == (":" + k2)[1..];
  }

  /** The entries of `a` with each key replaced by its named placeholder,
      values and order kept. */
  function PrefixKeys(a: Arr): (r: Arr)
    ensures Keys(r) == Placeholders(Keys(a))
    ensures forall i :: 0 <= i < |a| ==> r[i].1 == a[i].1
  {
    if |a| == 0 then []
    else
      Cons(a[0], a[1..]);
      var rest := PrefixKeys(a[1..]);
      var e := (":" + a[0].0, a[0].1);
      Cons(e, rest);
      assert e.0 !in Keys(rest) by {
        if e.0 in Keys(rest) {
          var j :| 0 <= j < |rest| && Keys(rest)[j] == e.0;
          PlaceholderInjective(a[0].0, a[1..][j].0);
          assert false;
        }
      }
      assert Placeholders(Keys(a)) == [e.0] + Placeholders(Keys(a[1..]));
      [e] + rest
  }

  /** Looking a placeholder up among the prefixed entries finds the original key's value. */
  lemma {:induction false} GetPrefixed(a: Arr, k: string)
    ensures Get(PrefixKeys(a), ":" + k) == Get(a, k)
    decreases |a|
  {
    if |a| > 0 {
      Cons(a[0], a[1..]);
      assert [a[0]] + a[1..] == a;
      var rest := PrefixKeys(a[1..]);
      var e := (":" + a[0].0, a[0].1);
      assert PrefixKeys(a) == [e] + rest;
      Cons(e, rest);
      if a[0].0 != k {
        if e.0 == ":" + k {
          PlaceholderInjective(a[0].0, k);
        }
      }
      GetPrefixed(a[1..], k);
    }
  }

  /** The `$inputs[":{$key}"] = $value` loop over `data`, starting from `into`:
      when no placeholder of `data` is already in `into`, the bindings are
      `into` followed by one placeholder per key of `data`, in `data`'s order,
      each bound to that key's value. */
  function Bind(into: Arr, data: Arr): (r: Arr)
    requires forall k :: HasKey(data, k) ==> !HasKey(into, ":" + k)
    ensures Keys(r) == Keys(into) + Placeholders(Keys(data))
    ensures forall k :: HasKey(data, k) ==> Get(r, ":" + k) == Get(data, k)
    ensures forall p :: HasKey(into, p) ==> Get(r, p) == Get(into, p)
  {
    var named := PrefixKeys(data);
    BindAppends(into, data);
    forall k | HasKey(data, k)
      ensures Get(into + named, ":" + k) == Get(data, k)
    {
      GetAppend(into, named, ":" + k);
      GetPrefixed(data, k);
    }
    forall p | HasKey(into, p)
      ensures Get(into + named, p) == Get(into, p)
    {
      GetAppend(into, named, p);
    }
    KeysAppend(into, named);
    Assign(into, named)
  }

  lemma BindAppends(into: Arr, data: Arr)
    requires forall k :: HasKey(data, k) ==> !HasKey(into, ":" + k)
    ensures Assign(into, PrefixKeys(data)) == into + PrefixKeys(data)
  {
    var named := PrefixKeys(data);
    forall i | 0 <= i < |named|
      ensures !HasKey(into, named[i].0)
    {
      assert named[i].0 == Keys(named)[i];
      assert HasKey(data, data[i].0);
    }
    AssignDisjoint(into, named);
  }

  /** The comma-separated list of `n` positional placeholders; it holds
      exactly `n` question marks. */
  function QuestionMarks(n: nat): (q: string)
    ensures CountChar('?', q) == n
  {
    PlaceholderListCount(n);
    Join(", ", Repeat("?", n))
  }

  /** `$data` with `created_at` and `updated_at` unset, other entries in order. */
  function WithoutTimestamps(data: Arr): (w: Arr)
    ensures !HasKey(w, "created_at") && !HasKey(w, "updated_at")
    ensures forall k :: k != "created_at" && k != "updated_at" ==> Get(w, k) == Get(data, k)
  {
    Unset(Unset(data, "created_at"), "updated_at")
  }

  /** The statement `create` prepares: the column list and the placeholder
      list name the same keys in the same order, the timestamp columns are
      left out, and each placeholder `:k` is bound to `data[k]`. */
  function InsertStatement(table: string, data: Arr): (s: Statement)
    ensures s.sql == "INSERT INTO " + table + " (" + Join(", ", Keys(WithoutTimestamps(data)))
                     + ") VALUES (" + Join(", ", Placeholders(Keys(WithoutTimestamps(data)))) + ");"
    ensures s.params.Named?
    ensures Keys(s.params.bindings) == Placeholders(Keys(WithoutTimestamps(data)))
    ensures forall k :: HasKey(WithoutTimestamps(data), k) ==> Get(s.params.bindings, ":" + k) == Get(data, k)
    ensures !HasKey(s.params.bindings, ":created_at") && !HasKey(s.params.bindings, ":updated_at")
  {
    var columns := Keys(WithoutTimestamps(data));
    Statement("INSERT INTO " + table + " (" + Join(", ", columns) + ") VALUES ("
              + Join(", ", Placeholders(columns)) + ");",
              Named(InsertBindings(data)))
  }

  /** The `$inputs` loop of `create`: one `:k` per remaining column, in order. */
  function InsertBindings(data: Arr): (b: Arr)
    ensures Keys(b) == Placeholders(Keys(WithoutTimestamps(data)))
    ensures forall k :: HasKey(WithoutTimestamps(data), k) ==> Get(b, ":" + k) == Get(data, k)
    ensures !HasKey(b, ":created_at") && !HasKey(b, ":updated_at")
  {
    var w := WithoutTimestamps(data);
    var bindings := Bind([], w);
    assert Keys(bindings) == Placeholders(Keys(w)) by {
      assert Keys([]) == [];
      assert [] + Placeholders(Keys(w)) == Placeholders(Keys(w));
    }
    forall k | HasKey(w, k)
      ensures Get(bindings, ":" + k) == Get(data, k)
    {
      assert Get(bindings, ":" + k) == Get(w, k);
    }
    NoTimestampPlaceholders(w);
    bindings
  }

  lemma NoTimestampPlaceholders(w: Arr)
    requires !HasKey(w, "created_at") && !HasKey(w, "updated_at")
    ensures ":created_at" !in Placeholders(Keys(w)) && ":updated_at" !in Placeholders(Keys(w))
  {
    PlaceholderAbsent(w, "created_at");
    PlaceholderAbsent(w, "updated_at");
    assert ":" + "created_at" == ":created_at";
    assert ":" + "updated_at" == ":updated_at";
  }

  /** A key absent from `w` has no placeholder among `w`'s placeholders. */
  lemma PlaceholderAbsent(w: Arr, k: string)
    requires !HasKey(w, k)
    ensures ":" + k !in Placeholders(Keys(w))
  {
    if ":" + k in Placeholders(Keys(w)) {
      var i :| 0 <= i < |w| && Placeholders(Keys(w))[i] == ":" + k;
      PlaceholderInjective(Keys(w)[i], k);
      assert false;
    }
  }

  /** `$key . ' = :' . $key` for every key. */
  function Assignments(keys: seq<string>): (r: seq<string>)
    ensures |r| == |keys|
    ensures forall i :: 0 <= i < |keys| ==> r[i] == keys[i] + " = " + Placeholders(keys)[i]
  {
    seq(|keys|, i requires 0 <= i < |keys| => keys[i] + " = :" + keys[i])
  }

  /** The data `update` writes: the merged attributes without `id` and the timestamps. */
  function UpdatableColumns(data: Arr): (w: Arr)
    ensures !HasKey(w, "id") && !HasKey(w, "created_at") && !HasKey(w, "updated_at")
    ensures forall k :: k != "id" && k != "created_at" && k != "updated_at" ==> Get(w, k) == Get(data, k)
  {
    Unset(Unset(Unset(data, "id"), "created_at"), "updated_at")
  }

  /** The statement `update` prepares: one `k = :k` per written column, keyed
      by `WHERE id = :id`; the bindings are `:id` first, then exactly one `:k`
      per written column, bound to the attribute's value. */
  function UpdateStatement(table: string, data: Arr, id: Value): (s: Statement)
    ensures s.sql == "UPDATE " + table + " SET " + Join(", ", Assignments(Keys(UpdatableColumns(data))))
                     + " WHERE id = :id;"
    ensures s.params.Named?
    ensures Keys(s.params.bindings) == [":id"] + Placeholders(Keys(UpdatableColumns(data)))
    ensures Get(s.params.bindings, ":id") == Some(id)
    ensures forall k :: HasKey(UpdatableColumns(data), k) ==> Get(s.params.bindings, ":" + k) == Get(data, k)
  {
    var w := UpdatableColumns(data);
    Statement("UPDATE " + table + " SET " + Join(", ", Assignments(Keys(w))) + " WHERE id = :id;",
              Named(UpdateBindings(data, id)))
  }

  /** `[':id' => $this->id]` extended by the `$inputs` loop over the written columns. */
  function UpdateBindings(data: Arr, id: Value): (b: Arr)
    ensures Keys(b) == [":id"] + Placeholders(Keys(UpdatableColumns(data)))
    ensures Get(b, ":id") == Some(id)
    ensures forall k :: HasKey(UpdatableColumns(data), k) ==> Get(b, ":" + k) == Get(data, k)
  {
    var w := UpdatableColumns(data);
    var into := Singleton(":id", id);
    IdPlaceholderFree(w, id);
    var bindings := Bind(into, w);
    UpdateBindingsFromData(data, bindings);
    bindings
  }

  lemma IdPlaceholderFree(w: Arr, id: Value)
    requires !HasKey(w, "id")
    ensures forall k :: HasKey(w, k) ==> !HasKey(Singleton(":id", id), ":" + k)
  {
    assert ":" + "id" == ":id";
    forall k | HasKey(w, k)
      ensures !HasKey(Singleton(":id", id), ":" + k)
    {
      if ":" + k == ":id" {
        PlaceholderInjective(k, "id");
      }
    }
  }

  lemma UpdateBindingsFromData(data: Arr, bindings: Arr)
    requires forall k :: HasKey(UpdatableColumns(data), k) ==>
      Get(bindings, ":" + k) == Get(UpdatableColumns(data), k)
    ensures forall k :: HasKey(UpdatableColumns(data), k) ==> Get(bindings, ":" + k) == Get(data, k)
  {
    var w := UpdatableColumns(data);
    forall k | HasKey(w, k)
      ensures Get(bindings, ":" + k) == Get(data, k)
    {
      assert k != "id" && k != "created_at" && k != "updated_at";
    }
  }

  /** The statement `delete` prepares: one row by id. */
  function DeleteStatement(table: string, id: Value): (s: Statement)
    ensures s.sql == "DELETE FROM " + table + " WHERE id = :id;"
    ensures s.params.Named? && Keys(s.params.bindings) == [":id"]
    ensures Get(s.params.bindings, ":id") == Some(id)
  {
    Statement("DELETE FROM " + table + " WHERE id = :id;", Named(Singleton(":id", id)))
  }

  /** A statement ending in one `?` per id, `);`, with the ids bound
      positionally: when the head holds no `?`, the statement holds exactly
      as many question marks as there are ids to bind. */
  function IdListStatement(head: string, ids: seq<Value>): (s: Statement)
    ensures s.params == Positional(ids)
    ensures '?' !in head ==> CountChar('?', s.sql) == |ids|
  {
    var marks := QuestionMarks(|ids|);
    CountPlaceholders(head, marks, ");");
    Statement(head + marks + ");", Positional(ids))
  }

  /** The statement `deleteMany` prepares. */
  function DeleteManyStatement(table: string, ids: seq<Value>): Statement
  {
    IdListStatement("DELETE FROM " + table + " WHERE id IN(", ids)
  }

  /** The statement `find` prepares. */
  function FindStatement(table: string, ids: seq<Value>): Statement
  {
    IdListStatement("SELECT * FROM " + table + " WHERE id IN (", ids)
  }

  lemma CountPlaceholders(head: string, marks: string, tail: string)
    ensures '?' !in head && '?' !in tail ==>
      CountChar('?', head + marks + tail) == CountChar('?', marks)
  {
    if '?' !in head && '?' !in tail {
      CountCharAppend('?', head + marks, tail);
      CountCharAppend('?', head, marks);
      CountCharAbsent('?', head);
      CountCharAbsent('?', tail);
    }
  }

  /** `(new static)->forceFill($row)` for every row, in row order. */
  function HydrateAll(cls: ModelClass, rows: seq<Arr>): (ms: seq<Instance>)
    ensures |ms| == |rows|
    ensures forall i :: 0 <= i < |rows| ==> ms[i].cls == cls && ms[i].data == rows[i]
  {
    seq(|rows|, i requires 0 <= i < |rows| => Hydrate(cls, rows[i]))
  }

  /** `find` turns a single id into a one-element list. */
  function IdList(ids: Ids): (vs: seq<Value>)
    ensures ids.Single? ==> vs == [ids.id]
    ensures ids.Many? ==> vs == ids.ids
  {
    match ids
    case Single(id) => [id]
    case Many(vs) => vs
  }

  /** What `find` makes of the rows it fetched: for a single id, null when
      there is no row and otherwise an instance of the first row; for a list,
      one instance per row, in row order. */
  function FoundFrom(cls: ModelClass, single: bool, rows: seq<Arr>): (f: Found)
    ensures single ==>
      && !f.FoundMany?
      && (f.NotFound? <==> |rows| == 0)
      && (f.FoundOne? ==> f.instance.cls == cls && f.instance.data == rows[0])
    ensures !single ==>
      && f.FoundMany?
      && |f.instances| == |rows|
      && forall i :: 0 <= i < |rows| ==> f.instances[i].cls == cls && f.instances[i].data == rows[i]
  {
    if |rows| == 0 && single then NotFound
    else if single then FoundOne(Hydrate(cls, rows[0]))
    else FoundMany(HydrateAll(cls, rows))
  }

  /** `find($ids)`: a falsy handle throws; otherwise the statement runs once
      and its rows become the result as `FoundFrom` describes. */
  function Find(cls: ModelClass, ids: Ids, db: Db): (o: Outcome<Found>)
    ensures var s := FindStatement(GetTable(cls), IdList(ids));
      && (!db.prepares(s.sql) ==> o.executed == [] && o.result == Throw(PDOException(PrepareFailed)))
      && (db.prepares(s.sql) ==> o.executed == [s] && o.result == Ok(FoundFrom(cls, ids.Single?, db.rows(s))))
  {
    var s := FindStatement(GetTable(cls), IdList(ids));
    if !db.prepares(s.sql) then Outcome([], Throw(PDOException(PrepareFailed)))
    else Outcome([s], Ok(FoundFrom(cls, ids.Single?, db.rows(s))))
  }

  /** `getAll()`: one instance per row of `SELECT * FROM table;`, in row order. */
  function GetAll(cls: ModelClass, db: Db): (o: Outcome<seq<Instance>>)
    ensures var s := Statement("SELECT * FROM " + GetTable(cls) + ";", NoParams);
      && (!db.prepares(s.sql) ==> o.executed == [] && o.result == Throw(PDOException(PrepareFailed)))
      && (db.prepares(s.sql) ==>
            && o.executed == [s]
            && o.result.Ok?
            && |o.result.value| == |db.rows(s)|
            && forall i :: 0 <= i < |db.rows(s)| ==>
                 o.result.value[i].cls == cls && o.result.value[i].data == db.rows(s)[i])
  {
    var s := Statement("SELECT * FROM " + GetTable(cls) + ";", NoParams);
    if !db.prepares(s.sql) then Outcome([], Throw(PDOException(PrepareFailed)))
    else Outcome([s], Ok(HydrateAll(cls, db.rows(s))))
  }

  /** `create($data)`: the insert runs, then the new row is looked up by the
      last insert id, so the result is null or one instance, never a list. */
  function Create(cls: ModelClass, data: Arr, db: Db): (o: Outcome<Found>)
    ensures var s := InsertStatement(GetTable(cls), data);
      && (!db.prepares(s.sql) ==> o.executed == [] && o.result == Throw(PDOException(PrepareFailed)))
      && (db.prepares(s.sql) ==>
            var f := Find(cls, Single(db.lastInsertId), db);
            o.executed == [s] + f.executed && o.result == f.result)
    ensures o.result.Ok? ==> !o.result.value.FoundMany?
  {
    var s := InsertStatement(GetTable(cls), data);
    if !db.prepares(s.sql) then Outcome([], Throw(PDOException(PrepareFailed)))
    else
      var f := Find(cls, Single(db.lastInsertId), db);
      Outcome([s] + f.executed, f.result)
  }

  /** `update($data)`: the instance is filled first (and stays filled even
      when the statement cannot be prepared); the update is keyed by the
      filled instance's id, and the row is then looked up again by that id. */
  function Update(m: Instance, data: Arr, db: Db): (r: (Instance, Outcome<Found>))
    ensures r.0 == Fill(m, data)
    ensures var id := GetAttr(r.0, "id");
      var s := UpdateStatement(GetTable(m.cls), r.0.data, id);
      && (!db.prepares(s.sql) ==> r.1.executed == [] && r.1.result == Throw(PDOException(PrepareFailed)))
      && (db.prepares(s.sql) ==>
            var f := Find(m.cls, Single(id), db);
            r.1.executed == [s] + f.executed && r.1.result == f.result)
    ensures r.1.result.Ok? ==> !r.1.result.value.FoundMany?
  {
    var filled := Fill(m, data);
    var id := GetAttr(filled, "id");
    var s := UpdateStatement(GetTable(m.cls), filled.data, id);
    if !db.prepares(s.sql) then (filled, Outcome([], Throw(PDOException(PrepareFailed))))
    else
      var f := Find(m.cls, Single(id), db);
      (filled, Outcome([s] + f.executed, f.result))
  }

  /** `delete()`: one statement keyed by the instance's id; returns the instance. */
  function Delete(m: Instance, db: Db): (o: Outcome<Instance>)
    ensures var s := DeleteStatement(GetTable(m.cls), GetAttr(m, "id"));
      && (!db.prepares(s.sql) ==> o.executed == [] && o.result == Throw(PDOException(PrepareFailed)))
      && (db.prepares(s.sql) ==> o.executed == [s] && o.result == Ok(m))
  {
    var s := DeleteStatement(GetTable(m.cls), GetAttr(m, "id"));
    if !db.prepares(s.sql) then Outcome([], Throw(PDOException(PrepareFailed)))
    else Outcome([s], Ok(m))
  }

  /** The `array_map` in `deleteMany`: instances become their id, plain ids stay. */
  function IdsOf(entries: seq<IdEntry>): (ids: seq<Value>)
    ensures |ids| == |entries|
    ensures forall i :: 0 <= i < |entries| ==>
      ids[i] == match entries[i] case RawId(v) => v case ModelRef(x) => GetAttr(x, "id")
  {
    seq(|entries|, i requires 0 <= i < |entries| =>
      match entries[i] case RawId(v) => v case ModelRef(x) => GetAttr(x, "id"))
  }

  /** `deleteMany($ids)`: one statement with a `?` per entry, bound positionally
      to the ids in order; returns nothing. */
  function DeleteMany(cls: ModelClass, entries: seq<IdEntry>, db: Db): (o: Outcome<()>)
    ensures var s := DeleteManyStatement(GetTable(cls), IdsOf(entries));
      && (!db.prepares(s.sql) ==> o.executed == [] && o.result == Throw(PDOException(PrepareFailed)))
      && (db.prepares(s.sql) ==> o.executed == [s] && o.result == Ok(()))
  {
    var s := DeleteManyStatement(GetTable(cls), IdsOf(entries));
    if !db.prepares(s.sql) then Outcome([], Throw(PDOException(PrepareFailed)))
    else Outcome([s], Ok(()))
  }

  /** PHP 8's loose comparison `'id' == $v` for the non-numeric string
      `'id'`: equal to the string itself and to `true`, to nothing else. */
  predicate LooselyEqualsId(v: Value) {
    v == Str("id") || v == Bool(true)
  }

  /** `in_array('id', $data)`: searches the array's VALUES. */
  predicate InArrayId(data: Arr) {
    exists i | 0 <= i < |data| :: LooselyEqualsId(data[i].1)
  }

  datatype SavePath = ViaUpdate | ViaCreate

  /** The branch `save()` takes as written: update exactly when some
      attribute VALUE loosely equals the string 'id'. */
  function SavePathAsWritten(m: Instance): (p: SavePath)
    ensures p == ViaUpdate <==> exists i :: 0 <= i < |m.data| && LooselyEqualsId(m.data[i].1)
  {
    if InArrayId(m.data) then ViaUpdate else ViaCreate
  }

  /** The branch `save()` evidently means to take: update exactly when the
      instance already has an `id` attribute. */
  function SavePathIntended(m: Instance): (p: SavePath)
    ensures p == ViaUpdate <==> HasKey(m.data, "id")
  {
    if HasKey(m.data, "id") then ViaUpdate else ViaCreate
  }

  /** An instance that carries an id is re-inserted, and one whose title is
      the word "id" is sent to update, by the branch as written. */
  lemma SaveAsWrittenMisroutes(cls: ModelClass)
    ensures var stored := Instance(cls, Singleton("id", Int(7)));
      SavePathAsWritten(stored) == ViaCreate && SavePathIntended(stored) == ViaUpdate
    ensures var titled := Instance(cls, Singleton("title", Str("id")));
      SavePathAsWritten(titled) == ViaUpdate && SavePathIntended(titled) == ViaCreate
  {
    var stored := Instance(cls, Singleton("id", Int(7)));
    assert stored.data == [("id", Int(7))];
    assert !InArrayId(stored.data);
    var titled := Instance(cls, Singleton("title", Str("id")));
    assert titled.data[0].1 == Str("id");
    assert "title" != "id";
  }

  /** Filling with nothing leaves an instance as it was. */
  lemma FillNothing(m: Instance)
    ensures Fill(m, []) == m
  {
    var kept := Only([], m.cls.hidden);
    assert |kept| == 0;
    assert Assign(m.data, kept) == m.data;
  }

  /** `save()` as written: `update()` with no new data, or `create($this->data)`. */
  function SaveAsWritten(m: Instance, db: Db): (r: (Instance, Outcome<Found>))
    ensures r.0 == m
    ensures SavePathAsWritten(m) == ViaUpdate ==> r.1 == Update(m, [], db).1
    ensures SavePathAsWritten(m) == ViaCreate ==> r.1 == Create(m.cls, m.data, db)
  {
    FillNothing(m);
    match SavePathAsWritten(m)
    case ViaUpdate => Update(m, [], db)
    case ViaCreate => (m, Create(m.cls, m.data, db))
  }

  /** `save()` with the key test it evidently intends: an instance with an id
      is updated under that id; one without is inserted. The instance itself
      is unchanged either way. */
  function Save(m: Instance, db: Db): (r: (Instance, Outcome<Found>))
    ensures r.0 == m
    ensures HasKey(m.data, "id") ==> r.1 == Update(m, [], db).1
    ensures !HasKey(m.data, "id") ==> r.1 == Create(m.cls, m.data, db)
  {
    FillNothing(m);
    match SavePathIntended(m)
    case ViaUpdate => Update(m, [], db)
    case ViaCreate => (m, Create(m.cls, m.data, db))
  }

  /** A saved instance that has an id is written back under that same id:
      the update binds `:id` to the stored id and every written column to the
      instance's own value. */
  lemma SaveUpdatesUnderStoredId(m: Instance, db: Db)
    requires HasKey(m.data, "id")
    ensures var s := UpdateStatement(GetTable(m.cls), m.data, GetAttr(m, "id"));
      && Get(s.params.bindings, ":id") == Get(m.data, "id")
      && (forall k :: HasKey(UpdatableColumns(m.data), k) ==> Get(s.params.bindings, ":" + k) == Get(m.data, k))
      && (db.prepares(s.sql) ==> |Save(m, db).1.executed| > 0 && Save(m, db).1.executed[0] == s)
      && (!db.prepares(s.sql) ==> Save(m, db).1.result == Throw(PDOException(PrepareFailed)))
  {
    FillNothing(m);
  }
}
