/** `Relations\HasOne`: a parent's view of its single child row. */
module HasOneRelation {
  import opened Php
  import opened PhpArray
  import opened Model
  import opened ModelQuery

  /** The child model class, the child's foreign-key column, the parent's
      owner-key attribute, and the owning (parent) instance. */
  datatype HasOne = HasOne(child: ModelClass, foreignKey: string, ownerKey: string, instance: Instance)

  /** The engine error PHP raises when `execute()` is called on the `false`
      that a failed `prepare` returns. */
  const NoStatement := "Call to a member function execute() on bool"

  /** The constructor: without an explicit foreign key the key is the OWNING
      instance's table followed by `_id`. */
  function New(child: ModelClass, foreignKey: Option<string>, ownerKey: string, instance: Instance): (rel: HasOne)
    ensures rel.child == child && rel.ownerKey == ownerKey && rel.instance == instance
    ensures foreignKey.Some? ==> rel.foreignKey == foreignKey.value
    ensures foreignKey.None? ==> rel.foreignKey == GetTable(instance.cls) + "_id"
  {
    HasOne(child, if foreignKey.Some? then foreignKey.value else GetTable(instance.cls) + "_id", ownerKey, instance)
  }

  /** `hasOne($class)` with the trait's defaults: inferred foreign key, owner key 'id'. */
  function Default(child: ModelClass, instance: Instance): (rel: HasOne)
    ensures rel.child == child && rel.instance == instance
    ensures rel.foreignKey == GetTable(instance.cls) + "_id"
    ensures rel.ownerKey == "id"
  {
    New(child, None, "id", instance)
  }

  /** The lookup `get` prepares: the child table filtered on the foreign key,
      one row at most, the one placeholder bound to the owner's key value. */
  function Query(rel: HasOne): (s: Statement)
    ensures s.sql == "SELECT * FROM " + GetTable(rel.child) + " WHERE " + rel.foreignKey
                     + " = :" + rel.foreignKey + " LIMIT 1;"
    ensures s.params.Named? && Keys(s.params.bindings) == [":" + rel.foreignKey]
    ensures Get(s.params.bindings, ":" + rel.foreignKey) == Some(GetAttr(rel.instance, rel.ownerKey))
  {
    Statement("SELECT * FROM " + GetTable(rel.child) + " WHERE " + rel.foreignKey
              + " = :" + rel.foreignKey + " LIMIT 1;",
              Named(Singleton(":" + rel.foreignKey, GetAttr(rel.instance, rel.ownerKey))))
  }

  /** `get()`: null when no row comes back, else a child instance filled from
      the first row. The handle is not checked, so a failed prepare ends in
      an engine error rather than a PDOException. */
  function Fetch(rel: HasOne, db: Db): (o: Outcome<Option<Instance>>)
    ensures !db.prepares(Query(rel).sql) ==> o.executed == [] && o.result == Throw(FatalError(NoStatement))
    ensures db.prepares(Query(rel).sql) ==> o.executed == [Query(rel)] && o.result.Ok?
    ensures o.result.Ok? ==> (o.result.value.None? <==> |db.rows(Query(rel))| == 0)
    ensures o.result.Ok? && o.result.value.Some? ==>
      o.result.value.value.cls == rel.child && o.result.value.value.data == db.rows(Query(rel))[0]
  {
    var s := Query(rel);
    if !db.prepares(s.sql) then Outcome([], Throw(FatalError(NoStatement)))
    else
      var rows := db.rows(s);
      if |rows| == 0 then Outcome([s], Ok(None))
      else Outcome([s], Ok(Some(Hydrate(rel.child, rows[0]))))
  }

  /** `has()`: whether `get()` finds a child; it throws when `get()` does. */
  function Has(rel: HasOne, db: Db): (o: Outcome<bool>)
    ensures o.executed == Fetch(rel, db).executed
    ensures o.result.Ok? <==> Fetch(rel, db).result.Ok?
    ensures o.result.Ok? ==> (o.result.value <==> Fetch(rel, db).result.value.Some?)
    ensures o.result.Throw? ==> o.result == Throw(Fetch(rel, db).result.error)
  {
    var g := Fetch(rel, db);
    match g.result
    case Throw(e) => Outcome(g.executed, Throw(e))
    case Ok(child) => Outcome(g.executed, Ok(child.Some?))
  }

  /** The data `create` hands to the child's `create`: the caller's data with
      the foreign key set to the owner's key value, whatever was there. */
  function CreatePayload(rel: HasOne, data: Arr): (d: Arr)
    ensures Get(d, rel.foreignKey) == Some(GetAttr(rel.instance, rel.ownerKey))
    ensures forall k :: k != rel.foreignKey ==> Get(d, k) == Get(data, k)
  {
    Set(data, rel.foreignKey, GetAttr(rel.instance, rel.ownerKey))
  }

  /** `create($data)`: the child's `create` with the foreign key injected, so
      the insert binds the foreign-key placeholder to the owner's key value
      (unless the foreign key is a timestamp column, which `create` drops). */
  function Create(rel: HasOne, data: Arr, db: Db): (o: Outcome<Found>)
    ensures var s := InsertStatement(GetTable(rel.child), CreatePayload(rel, data));
      && (!db.prepares(s.sql) ==> o.result == Throw(PDOException(PrepareFailed)))
      && (db.prepares(s.sql) ==> |o.executed| > 0 && o.executed[0] == s)
      && (rel.foreignKey != "created_at" && rel.foreignKey != "updated_at" ==>
            Get(s.params.bindings, ":" + rel.foreignKey) == Some(GetAttr(rel.instance, rel.ownerKey)))
  {
    var payload := CreatePayload(rel, data);
    assert HasKey(WithoutTimestamps(payload), rel.foreignKey) <==>
           rel.foreignKey != "created_at" && rel.foreignKey != "updated_at";
    ModelQuery.Create(rel.child, CreatePayload(rel, data), db)
  }

  const NoChildToUpdate := "Parent does not have a child to update."
  const NoChildToDelete := "Parent does not have a child to delete."

  /** `update($data)`: throws a LogicException when there is no child;
      otherwise fetches the child again and updates it, so the lookup runs
      twice before the update. */
  function Update(rel: HasOne, data: Arr, db: Db): (o: Outcome<Found>)
    ensures Fetch(rel, db).result == Ok(None) ==> o.result == Throw(LogicException(NoChildToUpdate))
    ensures Fetch(rel, db).result.Throw? ==> o.result == Throw(Fetch(rel, db).result.error)
    ensures Fetch(rel, db).result.Ok? && Fetch(rel, db).result.value.Some? ==>
      var child := Fetch(rel, db).result.value.value;
      && o.result == ModelQuery.Update(child, data, db).1.result
      && |o.executed| >= 2 && o.executed[0] == Query(rel) && o.executed[1] == Query(rel)
      && o.executed[2..] == ModelQuery.Update(child, data, db).1.executed
    ensures !(Fetch(rel, db).result.Ok? && Fetch(rel, db).result.value.Some?) ==>
      o.executed == Fetch(rel, db).executed
  {
    var h := Has(rel, db);
    match h.result
    case Throw(e) => Outcome(h.executed, Throw(e))
    case Ok(present) =>
      if !present then Outcome(h.executed, Throw(LogicException(NoChildToUpdate)))
      else
        var g := Fetch(rel, db);
        AgainThen(g.executed[0], ModelQuery.Update(g.result.value.value, data, db).1)
  }

  /** `delete()`: throws a LogicException when there is no child; otherwise
      fetches the child again and deletes it, so the lookup runs twice
      before the delete. */
  function Delete(rel: HasOne, db: Db): (o: Outcome<Instance>)
    ensures Fetch(rel, db).result == Ok(None) ==> o.result == Throw(LogicException(NoChildToDelete))
    ensures Fetch(rel, db).result.Throw? ==> o.result == Throw(Fetch(rel, db).result.error)
    ensures Fetch(rel, db).result.Ok? && Fetch(rel, db).result.value.Some? ==>
      var child := Fetch(rel, db).result.value.value;
      && o.result == ModelQuery.Delete(child, db).result
      && |o.executed| >= 2 && o.executed[0] == Query(rel) && o.executed[1] == Query(rel)
      && o.executed[2..] == ModelQuery.Delete(child, db).executed
    ensures !(Fetch(rel, db).result.Ok? && Fetch(rel, db).result.value.Some?) ==>
      o.executed == Fetch(rel, db).executed
  {
    var h := Has(rel, db);
    match h.result
    case Throw(e) => Outcome(h.executed, Throw(e))
    case Ok(present) =>
      if !present then Outcome(h.executed, Throw(LogicException(NoChildToDelete)))
      else
        var g := Fetch(rel, db);
        AgainThen(g.executed[0], ModelQuery.Delete(g.result.value.value, db))
  }

  /** The found branch of `update` and `delete`: the lookup runs again, then
      the child's own operation. */
  function AgainThen<T>(lookup: Statement, next: Outcome<T>): (o: Outcome<T>)
    ensures o.result == next.result
    ensures |o.executed| == |next.executed| + 2 && o.executed[0] == lookup && o.executed[1] == lookup
    ensures o.executed[2..] == next.executed
  {
    Outcome([lookup, lookup] + next.executed, next.result)
  }
}

/** `Relations\BelongsTo`: a child's view of its parent row. */
module BelongsToRelation {
  import opened Php
  import HasOneRelation
  import opened PhpArray
  import opened Model
  import opened ModelQuery

  /** The parent model class, the child's foreign-key attribute, the parent's
      owner-key column, and the owning (child) instance. */
  datatype BelongsTo = BelongsTo(parent: ModelClass, foreignKey: string, ownerKey: string, instance: Instance)

  const NoParent := "Child does not have a parent."
  const CannotCreateParent := "Child cannot create its parent."
  const CannotDeleteParent := "Child cannot delete its parent."

  /** The constructor: without an explicit foreign key the key is the PARENT
      class's table followed by `_id`. */
  function New(parent: ModelClass, foreignKey: Option<string>, ownerKey: string, instance: Instance): (rel: BelongsTo)
    ensures rel.parent == parent && rel.ownerKey == ownerKey && rel.instance == instance
    ensures foreignKey.Some? ==> rel.foreignKey == foreignKey.value
    ensures foreignKey.None? ==> rel.foreignKey == GetTable(parent) + "_id"
  {
    BelongsTo(parent, if foreignKey.Some? then foreignKey.value else GetTable(parent) + "_id", ownerKey, instance)
  }

  /** `belongsTo($class)` with the trait's defaults. */
  function Default(parent: ModelClass, instance: Instance): (rel: BelongsTo)
    ensures rel.parent == parent && rel.instance == instance
    ensures rel.foreignKey == GetTable(parent) + "_id"
    ensures rel.ownerKey == "id"
  {
    New(parent, None, "id", instance)
  }

  /** The lookup `get` prepares: the parent table filtered on the owner key,
      one row at most, the one placeholder bound to the child's foreign-key value. */
  function Query(rel: BelongsTo): (s: Statement)
    ensures s.sql == "SELECT * FROM " + GetTable(rel.parent) + " WHERE " + rel.ownerKey
                     + " = :" + rel.ownerKey + " LIMIT 1;"
    ensures s.params.Named? && Keys(s.params.bindings) == [":" + rel.ownerKey]
    ensures Get(s.params.bindings, ":" + rel.ownerKey) == Some(GetAttr(rel.instance, rel.foreignKey))
  {
    Statement("SELECT * FROM " + GetTable(rel.parent) + " WHERE " + rel.ownerKey
              + " = :" + rel.ownerKey + " LIMIT 1;",
              Named(Singleton(":" + rel.ownerKey, GetAttr(rel.instance, rel.foreignKey))))
  }

  /** `get()`: a LogicException when no row comes back, else a parent
      instance filled from the first row; never null. */
  function Fetch(rel: BelongsTo, db: Db): (o: Outcome<Instance>)
    ensures !db.prepares(Query(rel).sql) ==> o.executed == [] && o.result == Throw(FatalError(HasOneRelation.NoStatement))
    ensures db.prepares(Query(rel).sql) ==> o.executed == [Query(rel)]
    ensures db.prepares(Query(rel).sql) ==>
      (o.result == Throw(LogicException(NoParent)) <==> |db.rows(Query(rel))| == 0)
    ensures db.prepares(Query(rel).sql) && |db.rows(Query(rel))| > 0 ==> o.result.Ok?
    ensures o.result.Ok? ==>
      o.result.value.cls == rel.parent && o.result.value.data == db.rows(Query(rel))[0]
  {
    var s := Query(rel);
    if !db.prepares(s.sql) then Outcome([], Throw(FatalError(HasOneRelation.NoStatement)))
    else
      var rows := db.rows(s);
      if |rows| == 0 then Outcome([s], Throw(LogicException(NoParent)))
      else Outcome([s], Ok(Hydrate(rel.parent, rows[0])))
  }

  /** `create($data)`: a child may not create its parent, whatever the data. */
  function Create(rel: BelongsTo, data: Arr): (o: Outcome<Found>)
    ensures o.executed == [] && o.result == Throw(LogicException(CannotCreateParent))
  {
    Outcome([], Throw(LogicException(CannotCreateParent)))
  }

  /** `delete()`: a child may not delete its parent. */
  function Delete(rel: BelongsTo): (o: Outcome<Instance>)
    ensures o.executed == [] && o.result == Throw(LogicException(CannotDeleteParent))
  {
    Outcome([], Throw(LogicException(CannotDeleteParent)))
  }

  /** `has()`: unconditionally true, without touching the database. */
  function Has(rel: BelongsTo): (b: bool)
    ensures b
  {
    true
  }

  /** `update($data)`: fetches the parent (throwing when there is none) and
      updates it, so the lookup runs first and the parent's update after it. */
  function Update(rel: BelongsTo, data: Arr, db: Db): (o: Outcome<Found>)
    ensures var g := Fetch(rel, db);
      o.executed == g.executed + (if g.result.Ok? then ModelQuery.Update(g.result.value, data, db).1.executed else [])
    ensures Fetch(rel, db).result.Throw? ==> o.result == Throw(Fetch(rel, db).result.error)
    ensures Fetch(rel, db).result.Ok? ==>
      o.result == ModelQuery.Update(Fetch(rel, db).result.value, data, db).1.result
  {
    var g := Fetch(rel, db);
    match g.result
    case Throw(e) => Outcome(g.executed, Throw(e))
    case Ok(p) =>
      var u := ModelQuery.Update(p, data, db).1;
      Outcome(g.executed + u.executed, u.result)
  }

  /** On a database that has no related row, the two relations part ways:
      HasOne answers null while BelongsTo throws. */
  lemma AbsenceAsymmetry(child: ModelClass, parent: ModelClass, owner: Instance, db: Db)
    requires forall s: Statement :: db.prepares(s.sql) && |db.rows(s)| == 0
    ensures HasOneRelation.Fetch(HasOneRelation.Default(child, owner), db).result == Ok(None)
    ensures Fetch(Default(parent, owner), db).result == Throw(LogicException(NoParent))
    ensures HasOneRelation.Has(HasOneRelation.Default(child, owner), db).result == Ok(false)
    ensures Has(Default(parent, owner))
  {
    var q1 := HasOneRelation.Query(HasOneRelation.Default(child, owner));
    var q2 := Query(Default(parent, owner));
    assert db.prepares(q1.sql) && |db.rows(q1)| == 0;
    assert db.prepares(q2.sql) && |db.rows(q2)| == 0;
  }
}
