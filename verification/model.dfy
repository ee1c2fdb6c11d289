/** The attribute side of the active-record base class `Models\Model`:
    magic property access, mass assignment, table-name inference and
    serialization. An instance is a value; the PHP methods that mutate
    `$this` and return it are functions returning the updated instance. */
module Model {
  import opened Php
  import opened Text
  import opened PhpArray

  /** What a concrete model class declares: its fully qualified class name,
      the static `$table` (None for PHP's null, meaning "infer it"), and the
      `$fillable` and `$hidden` column lists. */
  datatype ModelClass = ModelClass(name: string, table: Option<string>, fillable: seq<string>, hidden: seq<string>)

  /** A model instance: its class and its `$data` attribute array. */
  datatype Instance = Instance(cls: ModelClass, data: Arr)

  /** `new static()` with no argument: no attributes. */
  function Blank(cls: ModelClass): Instance {
    Instance(cls, [])
  }

  /** `__set($key, $value)`: the attribute is stored and every other attribute is kept. */
  function SetAttr(m: Instance, key: string, value: Value): (r: Instance)
    ensures r.cls == m.cls
    ensures GetAttr(r, key) == value
    ensures forall k :: k != key ==> GetAttr(r, k) == GetAttr(m, k)
    ensures forall k :: HasKey(r.data, k) <==> k == key || HasKey(m.data, k)
  {
    m.(data := Set(m.data, key, value))
  }

  /** `__get($key)`: the stored value, or null (with PHP's undefined-index
      notice) when the attribute was never set. */
  function GetAttr(m: Instance, key: string): (v: Value)
    ensures HasKey(m.data, key) ==> Get(m.data, key) == Some(v)
    ensures !HasKey(m.data, key) ==> v == Null
  {
    Read(m.data, key)
  }

  /** `forceFill($data)`: every key of `data` takes `data`'s value, every other
      attribute keeps its value; the class is unchanged. */
  function ForceFill(m: Instance, data: Arr): (r: Instance)
    ensures r.cls == m.cls
    ensures forall k :: HasKey(data, k) ==> Get(r.data, k) == Get(data, k)
    ensures forall k :: !HasKey(data, k) ==> Get(r.data, k) == Get(m.data, k)
  {
    m.(data := Assign(m.data, data))
  }

  /** `fill($data)`: force-fills what `only($data, $this->hidden)` keeps. The
      filter is the HIDDEN list, not the fillable one; with `only` read as a
      key filter, attributes outside `hidden` are never touched. */
  function Fill(m: Instance, data: Arr): (r: Instance)
    ensures r.cls == m.cls
    ensures forall k :: k !in m.cls.hidden ==> Get(r.data, k) == Get(m.data, k)
    ensures forall k :: k in m.cls.hidden ==>
      Get(r.data, k) == if HasKey(data, k) then Get(data, k) else Get(m.data, k)
  {
    ForceFill(m, Only(data, m.cls.hidden))
  }

  /** `__construct($data = null)`: empty, or filled from `data` when one is given. */
  function Construct(cls: ModelClass, data: Option<Arr>): (m: Instance)
    ensures m.cls == cls
    ensures data.None? ==> m.data == []
    ensures forall k :: k !in cls.hidden ==> !HasKey(m.data, k)
    ensures data.Some? ==> forall k :: k in cls.hidden ==> Get(m.data, k) == Get(data.value, k)
  {
    match data
    case None => Blank(cls)
    case Some(d) => Fill(Blank(cls), d)
  }

  /** `(new static)->forceFill($row)`: a fresh instance whose attributes are
      exactly the row, in the row's column order. */
  function Hydrate(cls: ModelClass, row: Arr): (m: Instance)
    ensures m.cls == cls
    ensures m.data == row
  {
    CopyIsIdentity(row);
    ForceFill(Blank(cls), row)
  }

  /** `getTable()`: the explicit table when one is declared; otherwise the
      lower-cased last segment of the namespaced class name. */
  function GetTable(cls: ModelClass): (t: string)
    ensures cls.table.Some? ==> t == cls.table.value
    ensures cls.table.None? ==>
      var n := cls.name;
      && |t| <= |n|
      && t == Lower(n[|n| - |t|..])
      && '\\' !in t
      && (|t| < |n| ==> n[|n| - |t| - 1] == '\\')
  {
    match cls.table
    case Some(explicit) => explicit
    case None => Lower(AfterLast(cls.name, '\\'))
  }

  /** Without an explicit table, `Models\Post` is stored in table `post`. */
  lemma PostTable(fillable: seq<string>, hidden: seq<string>)
    ensures GetTable(ModelClass("Models\\Post", None, fillable, hidden)) == "post"
  {
    var n := "Models\\Post";
    assert n == "Models" + ['\\'] + "Post";
    AfterLastOfSegment("Models", '\\', "Post");
    var t := Lower("Post");
    assert |t| == 4 && t[0] == 'p' && t[1] == 'o' && t[2] == 's' && t[3] == 't';
    assert t == "post";
  }

  /** `toArray()`: the attributes minus the hidden ones, via `except`. */
  function ToArray(m: Instance): (r: Arr)
    ensures forall k :: Get(r, k) == if k in m.cls.hidden then None else Get(m.data, k)
  {
    Except(m.data, m.cls.hidden)
  }

  /** `toJSON()`: a `stdClass` holding exactly the pairs of `toArray()`, in order. */
  function ToJSON(m: Instance): (o: StdClass)
    ensures o.props == ToArray(m)
    ensures forall k :: k in m.cls.hidden ==> !HasKey(o.props, k)
    ensures forall k :: k !in m.cls.hidden ==> Get(o.props, k) == Get(m.data, k)
  {
    ToObject(ToArray(m))
  }
}
