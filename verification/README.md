# php-template core, modelled in Dafny

This project models the core of a small PHP MVC template:

- the active-record base class `Models\Model`: attributes, mass assignment,
  table names, serialization, and the SQL that its CRUD operations build;
- the two routers, the namespaced `Libraries\Router` with prefix groups and
  the older global `Router`;
- the `HasOne` and `BelongsTo` relations;
- the request bag `Libraries\Input`.

Everything is stated over immutable values. A PHP array with string keys is
an ordered sequence of key/value pairs whose keys are distinct
(`PhpArray.Arr`). A model instance is its class descriptor plus such an
array (`Model.Instance`). Each operation that mutates `$this` and returns it
becomes a function that returns the updated instance.

The database connection is an oracle `ModelQuery.Db`. It says which SQL texts
prepare successfully, which rows a given statement (SQL text plus bindings)
returns, and what `lastInsertId()` answers. An operation returns an
`Outcome`, which holds:

- the statements it executed, in order;
- either a value or the exception it throws.

So every contract about the database speaks about the exact SQL text and
bindings sent, and about how the rows that come back are shaped into
instances.

Files:

| file | module | models |
|---|---|---|
| php.dfy | `Php` | PHP scalars, exceptions, `Result`/`Option` |
| text.dfy | `Text` | `strtolower`, `implode`, `explode`-suffix, character counting |
| php_array.dfy | `PhpArray` | ordered arrays: `$a[k] = v`, `foreach` copy, `unset`, `only`/`except`, stdClass |
| model.dfy | `Model` | `models/Model.php`: attributes, fill, table name, toArray/toJSON |
| model_query.dfy | `ModelQuery` | `models/Model.php`: create, update, save, delete, deleteMany, getAll, find |
| routing.dfy | `Routing` | `libraries/Router.php` |
| legacy_routing.dfy | `LegacyRouting` | `Router.php` |
| relations.dfy | `HasOneRelation`, `BelongsToRelation` | `relations/HasOne.php`, `relations/BelongsTo.php` |
| input.dfy | `InputBag` | `libraries/Input.php` |

Points where the code does something other than its names and docblocks
suggest; the model follows the code.

- `$fillable` is documented as "Properties that can be mass-assigned"
  (models/Model.php:20-25), and `forceFill` as mass assignment "by ignoring
  the fillable array" (models/Model.php:94-95), which implies that `fill`
  honours it. `fill` filters the incoming data through the model's `hidden`
  list instead (models/Model.php:90). A constructed or filled instance
  therefore receives only hidden columns (`Model.Construct`, `Model.Fill`).
- `toJSON` is documented as serializing the model's data into an object
  (models/Model.php:120-124). The serialization is shallow: `toArray`
  removes hidden keys and `toJSON` copies the remaining pairs onto a
  `stdClass` one by one. Nothing nested is serialized recursively.
- `run` is documented as testing the url against the registered routes
  (libraries/Router.php:113-118). It does not act on the first route whose
  uri and method match. It acts on the first such route whose handler is a
  closure or a controller array. A matching route with any other handler is
  passed over.
- `group` is documented as grouping routes with a prefix
  (libraries/Router.php:98-104). It does not nest. It sets the prefix, runs
  the body and resets the prefix to `""`
  (`Routing.NestedGroupDropsOuterPrefix`).
- `HasOne::get` and `BelongsTo::get` do not check the prepared statement,
  unlike `Models\Model`. On a connection in PDO's silent error mode (the
  mode the model reads; see "## Left out") a failed prepare returns `false`
  and the next line ends in an engine error (`Call to a member function
  execute() on bool`), not a `PDOException`. The connection that `pdo.php`
  builds is in exception mode, where the failure is a `PDOException` thrown
  by the driver instead.
- `HasOne::update`/`delete` run the lookup twice before they act.

## Model

| member | source | states |
|---|---|---|
| Model.SetAttr | models/Model.php:66-69 | after `__set(k, v)`, `__get(k)` is `v`, every other attribute reads as before, and the key set grows by `k` at most |
| Model.GetAttr | models/Model.php:77-80 | `__get` returns the stored value, or null when the attribute is missing |
| Model.ForceFill | models/Model.php:99-105 | every key of the data takes the data's value; every other attribute keeps its value; the class is unchanged |
| Model.Fill | models/Model.php:88-91 | `fill` is `forceFill` of the hidden part of the data: attributes outside `hidden` never change; a hidden key takes the data's value when the data has it and keeps its own value otherwise |
| Model.Construct | models/Model.php:52-57 | without data the instance is empty; with data, every hidden key reads as in the data and no attribute outside `hidden` is present |
| Model.Hydrate | models/Model.php:320-323 | a row force-filled into a fresh instance gives attributes equal to the row, same order |
| Model.GetTable | models/Model.php:112-119 | an explicit table wins; otherwise the table is the lower-cased last backslash-separated segment of the class name (no backslash in it, ends the class name) |
| Text.AfterLastOfSegment | models/Model.php:117-118 | the last segment of a name after its final separator is exactly the text that follows it, when that text holds no separator |
| Model.PostTable | models/Model.php:117-118 | the class `Models\Post` without an explicit table maps to table `post` |
| Model.ToArray | models/Model.php:142-145 | a key reads as the attribute's value unless it is hidden, in which case it is absent |
| Model.ToJSON | models/Model.php:126-135 | the object's properties are exactly the pairs of `toArray`, in order: no hidden attribute appears, and every other attribute appears with its value |
| PhpArray.Set | models/Model.php:66-69 | `$a[k] = v` stores `v` under `k` and leaves every other key's value alone; an existing key keeps its place and a new key goes last |
| PhpArray.CopyIsIdentity | models/Model.php:130-132 | copying an array pair by pair into an empty container reproduces it exactly |
| PhpArray.AssignKeyOrder | libraries/Input.php:18-23 | after a `foreach` assignment the target's keys keep their places and keys new to it follow in the source's order |
| PhpArray.AssignDisjoint | models/Model.php:195-197 | assigning entries whose keys are all new appends them unchanged |
| ModelQuery.Bind | models/Model.php:193-197 | binding a row adds `:k` for each column `k`, bound to the column's value, after the entries already present, which are kept |
| ModelQuery.WithoutTimestamps | models/Model.php:177-178 | the data `create` inserts has no `created_at` or `updated_at`, and every other key reads as in the caller's data |
| ModelQuery.InsertStatement | models/Model.php:176-197 | the INSERT lists the columns without `created_at`/`updated_at`; the bindings' keys are exactly `:column` in column order, each bound to the data's value; no timestamp placeholder is bound |
| ModelQuery.UpdatableColumns | models/Model.php:216-219 | the columns `update` writes are the attributes without `id`, `created_at` and `updated_at`; every other attribute reads as in the instance |
| ModelQuery.UpdateStatement | models/Model.php:216-246 | the UPDATE assigns every column except `id` and the timestamps; bindings are `:id` (bound to the id) then `:column` for each written column, bound to its value |
| ModelQuery.DeleteStatement | models/Model.php:272-277 | the DELETE filters on `:id`, bound to the instance's id |
| ModelQuery.QuestionMarks | models/Model.php:297-299 | the placeholder list for `n` ids holds exactly `n` question marks |
| ModelQuery.IdListStatement | models/Model.php:297-305 | the `IN` list of `deleteMany` (and of `find`, lines 340-350) binds the ids positionally, and when the text before the list has no `?`, the statement has exactly one `?` per id |
| ModelQuery.IdsOf | models/Model.php:290-295 | a model in the list is replaced by its id; a raw id is kept; order and length are preserved |
| ModelQuery.IdList | models/Model.php:333-337 | `find` of a single id looks up the one-element list holding that id; a list of ids is used as given |
| ModelQuery.HydrateAll | models/Model.php:320-323 | one instance per row, in row order, each of the model's class and holding exactly its row |
| ModelQuery.FoundFrom | models/Model.php:351-363 | for a single id the result is null exactly when no row came back, else an instance filled from the first row, never a list; for a list it is one instance per row, in row order |
| ModelQuery.Find | models/Model.php:332-349 | a failed prepare throws a PDOException with nothing run; otherwise exactly the `SELECT ... IN` statement runs, once, and the result is what `FoundFrom` makes of its rows |
| ModelQuery.GetAll | models/Model.php:313-324 | one instance per returned row, in order, each filled from its row; a failed query throws |
| ModelQuery.Create | models/Model.php:174-204 | a failed prepare throws before anything runs; otherwise the INSERT runs, then `find` on `lastInsertId()`, whose result is returned (never a list) |
| ModelQuery.Update | models/Model.php:212-251 | the instance is filled first; the UPDATE is keyed by its id; a failed prepare throws; otherwise `find` of that id follows and its result is returned |
| ModelQuery.Delete | models/Model.php:270-280 | exactly the DELETE by id runs, and the same instance is returned; a failed prepare throws |
| ModelQuery.DeleteMany | models/Model.php:288-306 | exactly one DELETE ... IN statement runs, bound to the ids in order; a failed prepare throws |
| ModelQuery.SavePathAsWritten | models/Model.php:258-263 | the update branch is taken exactly when some attribute VALUE loosely equals the string `'id'` |
| ModelQuery.SaveAsWrittenMisroutes | models/Model.php:260 | an instance `['id' => 7]` is re-inserted, and one `['title' => 'id']` is sent to update |
| ModelQuery.SaveAsWritten | models/Model.php:258-263 | as written: update when the value test holds, otherwise create from the attributes; the instance is unchanged |
| ModelQuery.SavePathIntended | models/Model.php:258-263 | the update branch is taken exactly when the instance has an `id` attribute |
| ModelQuery.Save | models/Model.php:258-263 | an instance with an id is updated, one without is created; the instance is unchanged |
| ModelQuery.SaveUpdatesUnderStoredId | models/Model.php:240-246 | saving an instance that has an id binds `:id` to that stored id and every written column to the instance's value |
| Routing.Register | libraries/Router.php:28-36 | exactly one route is appended, under the current prefix followed by the uri; earlier routes and the prefix are unchanged |
| Routing.RegisterVerb | libraries/Router.php:45-96 | each verb helper registers with its lower-case method name |
| Routing.Group | libraries/Router.php:105-111 | after a group the prefix is empty |
| Routing.ExecOnlyAppends | libraries/Router.php:30-34 | any registration script only appends routes and never alters earlier ones |
| Routing.ExecFlat | libraries/Router.php:28-36 | a run of plain registrations appends their routes in order, each under the current prefix |
| Routing.GroupPrefixesItsRoutes | libraries/Router.php:105-111 | a group whose body only registers routes adds them under the group prefix and leaves the prefix empty |
| Routing.NestedGroupDropsOuterPrefix | libraries/Router.php:107-109 | nesting `/b` in `/a` registers the inner route under `/b` alone, and a later route of the outer group under no prefix |
| Routing.Invoke | libraries/Router.php:123-141 | a closure is called; a controller array throws InvalidArgumentException for a missing class, a base Exception naming the action for a missing method, else calls the action |
| Routing.Dispatch | libraries/Router.php:121-145 | the 404 view is rendered exactly when no route is selected; otherwise the outcome is that of some first-selected route |
| Routing.Run | libraries/Router.php:119-146 | the 404 view `errors.404` is rendered exactly when no route matches with a callable handler; otherwise the outcome is the first such route's handler |
| Routing.FirstSelectedDecides | libraries/Router.php:121-127 | the first route that matches and has a closure or controller handler decides the outcome, whatever follows it |
| Routing.RegisterThenRun | libraries/Router.php:28-36 | a route registered on an otherwise unmatched uri is the one a request for it (any case of the method) dispatches |
| Routing.NonMatchingRouteIsInert | libraries/Router.php:121-122 | appending a route that does not match the request changes nothing |
| Routing.MethodCaseIgnored | libraries/Router.php:122 | request methods that lower-case alike dispatch alike |
| Routing.GetRequestIsCaseInsensitive | libraries/Router.php:122 | a `GET` request and a `get` request dispatch alike |
| LegacyRouting.Register | Router.php:15-23 | exactly one route is appended with the uri verbatim |
| LegacyRouting.RegisterVerb | Router.php:25-48 | each verb helper registers with its lower-case method name |
| LegacyRouting.Run | Router.php:50-77 | the first selected route decides; a miss renders `errors/404` |
| LegacyRouting.RegisterIsUnprefixed | Router.php:17-21 | legacy registration is namespaced registration with an empty prefix |
| LegacyRouting.RunsAgreeButFor404 | Router.php:52-76 | both routers decide every request alike, except that their 404 view names differ |
| HasOneRelation.New | relations/HasOne.php:21-34 | without an explicit foreign key, the key is the owning instance's table followed by `_id` |
| HasOneRelation.Default | traits/HasRelations.php:16-19 | `hasOne($class)` relates `$class` to `$this`, infers the foreign key and uses owner key `id` |
| HasOneRelation.Query | relations/HasOne.php:46-51 | the lookup selects one child row by the foreign key, whose only placeholder is bound to the owner's key value |
| HasOneRelation.Fetch | relations/HasOne.php:42-60 | a failed prepare is an engine error; otherwise null exactly when no row comes back, else a child filled from the first row |
| HasOneRelation.Has | relations/HasOne.php:85-88 | true exactly when `get` finds a child; throws when `get` throws |
| HasOneRelation.CreatePayload | relations/HasOne.php:62-66 | the payload sets the foreign key to the owner's key value, overriding any value given, and keeps every other field |
| HasOneRelation.Create | relations/HasOne.php:62-67 | the child's INSERT binds the foreign-key placeholder to the owner's key value |
| HasOneRelation.Update | relations/HasOne.php:69-75 | no child throws "Parent does not have a child to update." after running only the lookup, and a failed lookup's error propagates the same way; otherwise the lookup runs twice and the child's update result is returned |
| HasOneRelation.Delete | relations/HasOne.php:77-83 | no child throws "Parent does not have a child to delete." after running only the lookup, and a failed lookup's error propagates the same way; otherwise the lookup runs twice and the child is deleted by id |
| BelongsToRelation.New | relations/BelongsTo.php:21-35 | without an explicit foreign key, the key is the PARENT class's table followed by `_id` |
| BelongsToRelation.Default | traits/HasRelations.php:21-24 | `belongsTo($class)` relates `$this` to the parent `$class`, infers the foreign key and uses owner key `id` |
| BelongsToRelation.Query | relations/BelongsTo.php:47-53 | the lookup selects one parent row by the owner key, bound to the child's foreign-key value |
| BelongsToRelation.Fetch | relations/BelongsTo.php:43-62 | a failed prepare is an engine error; no row throws "Child does not have a parent."; when a row comes back the result is the parent filled from the first row |
| BelongsToRelation.Create | relations/BelongsTo.php:64-67 | always throws "Child cannot create its parent." and runs nothing |
| BelongsToRelation.Update | relations/BelongsTo.php:69-72 | the lookup runs, and then, when it found a parent, the parent's update runs; the result is that update's, and the lookup's exception propagates |
| BelongsToRelation.Delete | relations/BelongsTo.php:74-77 | always throws "Child cannot delete its parent." and runs nothing |
| BelongsToRelation.Has | relations/BelongsTo.php:79-82 | answers true without consulting the database |
| BelongsToRelation.AbsenceAsymmetry | relations/BelongsTo.php:55-57 | against an empty database, a missing child is null and `has` is false, but a missing parent throws while `has` is still true |
| InputBag.FromRequest | libraries/Input.php:16-24 | a POST field overrides a GET field of the same name; the bag holds exactly the fields of either source |
| InputBag.GetOnly | libraries/Input.php:18-20 | with no POST fields the bag is the GET fields, in order |
| InputBag.FieldOrder | libraries/Input.php:16-24 | GET fields keep their order and POST-only fields follow in POST order |
| InputBag.All | libraries/Input.php:48-51 | `all()` returns the bag unchanged: the same keys in the same order, each with the value the bag holds |
| InputBag.ToArray | libraries/Input.php:58-61 | `toArray()` is `all()` |
| InputBag.ToJSON | libraries/Input.php:63-73 | the object's properties are exactly the bag's fields, in order |
| InputBag.FieldOfRequest | libraries/Input.php:53-56 | `__get` on the request gives the POST value when POST has the field, else the GET value, else null |
| InputBag.OnlyFields | libraries/Input.php:32-35 | a listed key reads as in the bag; any other key is absent |
| InputBag.ExceptFields | libraries/Input.php:43-46 | a listed key is absent; any other key reads as in the bag |

## Left out

- The database engine: SQL is never interpreted. The `Db` oracle answers which texts prepare and which rows a statement returns. So the round trip "create, then find the new id, gives back the input minus hidden fields" is not claimed, because it depends on the engine storing what it was sent.
- `rowCount()` is taken to be the number of rows the statement returns. It is the same oracle answer that `fetchAll` reads.
- `update` prepares with a forward-only cursor option. The option is not modelled.
- The global helpers `only`, `except` and `view` are defined outside the modelled files. `only` and `except` are given the key-filter reading their call sites rely on: keep the listed keys, or drop them, in the data's order. Every contract about `fill`, `toArray`, `Input::only` and `Input::except` rests on that reading.
- `view` rendering is abstracted to the name of the view returned.
- Calling closures and controller actions: a closure is an opaque token. A controller action is its class and method names. `class_exists` and `method_exists` are parameters.
- The request method (`$_SERVER['REQUEST_METHOD']`) and the `$_GET`/`$_POST` superglobals are parameters.
- Route files with arbitrary PHP inside a group body are modelled as scripts of registrations and groups (`Routing.Exec`).
- PHP loose comparison in `in_array` is modelled for the scalar kinds the model has (null, bool, int, string), by PHP 8 rules. PHP 7's numeric-string rules are not modelled.
- Attribute values are scalars. Arrays and objects as values, and any nested serialization, are not modelled.
- `deleteMany`: a model instance in the list is recognised by being a model of the class (`ModelRef`). An instance of an unrelated class would be bound as-is, and this is not modelled.
- `setConnection`/`getConnection`, the `Singleton` trait, `HasMany`, `Storage`, the bootstrap, configuration, and the remaining helpers are not part of this model.
- PDO's error mode. The model reads the connection in silent mode: `prepare` and `query` may return a falsy handle, which the code tests for, and `execute` always succeeds. The connection built in `pdo.php` uses exception mode with emulated prepares. There, SQL errors are thrown as `PDOException` by `execute` (models/Model.php:199, 248, 277, 305, 350; relations/HasOne.php:51; relations/BelongsTo.php:53). Exceptions thrown by `execute` are not modelled, so for example `ModelQuery.Create`'s "the INSERT runs, then `find`" takes an INSERT that prepares to succeed.
- Object identity of a relation's owner. `HasOne` and `BelongsTo` keep a handle to the owning model (`Model &$instance`) and read its attributes when `get`, `create` or `update` is called. The model's relation holds a snapshot of the owner taken when the relation is built, so a change made to the owner afterwards is not seen.
- `HasOneRelation.Create`: states the foreign-key binding and the first statement run, not the whole outcome. The outcome is that of `ModelQuery.Create`.

## Findings

| source | as written | input that shows it | evidently intended | confidence | as-written member | corrected member |
|---|---|---|---|---|---|---|
| models/Model.php:260 | `save()` tests `in_array('id', $this->data)`, which searches attribute VALUES for the string `'id'` | an instance with attributes `['id' => 7]` is inserted again instead of updated; one with `['title' => 'id']` is sent to update | update exactly when the instance has an `id` key (`array_key_exists`) | high; not executed | ModelQuery.SaveAsWritten (with ModelQuery.SaveAsWrittenMisroutes) | ModelQuery.Save |
