/** `Libraries\Input`: the request's GET and POST fields merged into one bag. */
module InputBag {
  import opened Php
  import opened PhpArray

  datatype Input = Input(data: Arr)

  /** The constructor: GET fields are copied first, then POST fields, so a
      POST field overrides a GET field of the same name; every field of
      either source is present, and nothing else. */
  function FromRequest(get: Arr, post: Arr): (input: Input)
    ensures forall k :: HasKey(post, k) ==> Get(input.data, k) == Get(post, k)
    ensures forall k :: !HasKey(post, k) ==> Get(input.data, k) == Get(get, k)
    ensures forall k :: HasKey(input.data, k) <==> HasKey(get, k) || HasKey(post, k)
  {
    Input(Assign(Assign([], get), post))
  }

  /** With no POST fields, the bag is the GET fields, in their order. */
  lemma GetOnly(get: Arr)
    ensures FromRequest(get, []).data == get
  {
    CopyIsIdentity(get);
  }

  /** Field order: the GET fields in their order, then the POST fields that
      GET lacks, in POST's order; a POST field that GET already has keeps
      GET's position. */
  lemma FieldOrder(get: Arr, post: Arr)
    ensures Keys(FromRequest(get, post).data) == Keys(get) + Fresh(Keys(post), get)
  {
    CopyIsIdentity(get);
    AssignKeyOrder(get, post);
  }

  /** `all()`: the merged fields. */
  function All(input: Input): (a: Arr)
    ensures Keys(a) == Keys(input.data)
    ensures forall k :: Get(a, k) == Get(input.data, k)
  {
    input.data
  }

  /** `toArray()`: the merged fields, as `all()` returns them. */
  function ToArray(input: Input): (a: Arr)
    ensures a == All(input)
  {
    input.data
  }

  /** `toJSON()`: an object with exactly the pairs of `toArray()`, in order. */
  function ToJSON(input: Input): (o: StdClass)
    ensures o.props == input.data
  {
    ToObject(ToArray(input))
  }

  /** `__get($name)`: the field's value, or null when the request lacks it. */
  function Field(input: Input, name: string): (v: Value)
  {
    Read(input.data, name)
  }

  /** Reading a field of the request: the POST value when POST has the
      field, else the GET value when GET has it, else null. */
  lemma FieldOfRequest(get: Arr, post: Arr, name: string)
    ensures Field(FromRequest(get, post), name) ==
      match Get(post, name)
      case Some(v) => v
      case None => (match Get(get, name) case Some(v) => v case None => Null)
  {
  }

  /** `only($keys)`: the global helper applied to the fields. */
  function OnlyFields(input: Input, keys: seq<string>): (a: Arr)
    ensures forall k :: Get(a, k) == if k in keys then Get(input.data, k) else None
  {
    Only(input.data, keys)
  }

  /** `except($keys)`: the global helper applied to the fields. */
  function ExceptFields(input: Input, keys: seq<string>): (a: Arr)
    ensures forall k :: Get(a, k) == if k in keys then None else Get(input.data, k)
  {
    Except(input.data, keys)
  }
}
