/**
 * The device of the legacy Python host plugin: attributes and actions in
 * two dictionaries keyed by path, whose paths are kept disjoint.  Python
 * dictionaries iterate in insertion order, so each dictionary's key order
 * is kept beside it.
 */
module PyDevices {
  import opened Wrappers
  import opened Avro

  /** The exceptions the plugin's code raises. */
  datatype PyException =
    | KeyError(message: string)
    | TypeError         // raised by calling the `NotImplemented` constant
    | NameError(name: string)
    | AvroException(args: seq<string>)
    | Raised(message: string)  // raised by a handler or by the codec

  /** `AttributeFlags`: an `IntFlag` with `READ = 1` and `WRITE = 2`. */
  datatype PyFlag = PyRead | PyWrite

  /** The behaviour an attribute class gives `read` and `write`. */
  datatype AttributeKind =
    | BaseKind
    | StoredKind
    | DelegatedKind(readHandler: () -> Result<Value, PyException>,
                    writeHandler: Value -> Result<(), PyException>)

  /**
   * An attribute: `Attribute` itself, `StoredAttribute` (its value kept in
   * memory) or `DelegatedAttribute` (read and write passed to handlers).
   */
  class PyAttribute {
    const path: string
    const flags: set<PyFlag>
    const schema: Schema
    const kind: AttributeKind
    var value: Value

    constructor Base(path: string, flags: set<PyFlag>, schema: Schema)
      ensures this.path == path && this.flags == flags && this.schema == schema && kind == BaseKind
    {
      this.path, this.flags, this.schema := path, flags, schema;
      kind := BaseKind;
      value := NullValue;
    }

    constructor Stored(path: string, flags: set<PyFlag>, schema: Schema, value: Value)
      ensures this.path == path && this.flags == flags && this.schema == schema && kind == StoredKind
      ensures this.value == value
    {
      this.path, this.flags, this.schema := path, flags, schema;
      kind := StoredKind;
      this.value := value;
    }

    constructor Delegated(path: string, flags: set<PyFlag>, schema: Schema,
                          readHandler: () -> Result<Value, PyException>,
                          writeHandler: Value -> Result<(), PyException>)
      ensures this.path == path && this.flags == flags && this.schema == schema
      ensures kind == DelegatedKind(readHandler, writeHandler)
    {
      this.path, this.flags, this.schema := path, flags, schema;
      kind := DelegatedKind(readHandler, writeHandler);
      value := NullValue;
    }

    /** `readable`: the READ flag is set. */
    predicate Readable()
    {
      PyRead in flags
    }

    /** `writable`: the WRITE flag is set. */
    predicate Writable()
    {
      PyWrite in flags
    }

    /**
     * `read`: the base class raises, a stored attribute returns its value,
     * a delegated one returns what its read handler returns.
     */
    function Read(): (r: Result<Value, PyException>)
      reads this
      ensures kind.BaseKind? ==> r == Failure(TypeError)
      ensures kind.StoredKind? ==> r == Success(value)
    {
      match kind
      case BaseKind => Failure(TypeError)
      case StoredKind => Success(value)
      case DelegatedKind(readHandler, _) => readHandler()
    }

    /** What `write(v)` returns or raises. */
    function WriteResult(v: Value): Result<(), PyException>
    {
      match kind
      case BaseKind => Failure(TypeError)
      case StoredKind => Success(())
      case DelegatedKind(_, writeHandler) => writeHandler(v)
    }

    /**
     * `write`: the base class raises and changes nothing, a stored
     * attribute keeps the value, so that reading next returns it.
     */
    method Write(v: Value) returns (r: Result<(), PyException>)
      modifies this
      ensures r == WriteResult(v)
      ensures kind.BaseKind? ==> r == Failure(TypeError)
      ensures kind.StoredKind? ==> value == v && Read() == Success(v)
      ensures !kind.StoredKind? ==> value == old(value)
    {
      match kind
      case BaseKind =>
        r := Failure(TypeError);
      case StoredKind =>
        value := v;
        r := Success(());
      case DelegatedKind(_, writeHandler) =>
        r := writeHandler(v);
    }
  }

  /** The behaviour an action class gives `run`. */
  datatype ActionKind = BaseAction | DelegatedAction(handler: () -> Result<Value, PyException>)

  /** An action: `Action` itself or `DelegatedAction`. */
  datatype PyAction = PyAction(path: string, inputSchema: Schema, outputSchema: Schema, kind: ActionKind)
  {
    /** `run`: the base class raises; a delegated action calls its handler without the input. */
    function Run(input: Value): Result<Value, PyException>
    {
      match kind
      case BaseAction => Failure(TypeError)
      case DelegatedAction(handler) => handler()
    }
  }

  /** The input of an action is never looked at: a delegated action answers alike for all inputs, the base one always raises. */
  lemma RunIgnoresInput(a: PyAction, input1: Value, input2: Value)
    ensures a.Run(input1) == a.Run(input2)
    ensures a.kind.BaseAction? ==> a.Run(input1) == Failure(TypeError)
  {
  }

  /** `order` lists each of `keys` once and nothing else: a dictionary's iteration order. */
  ghost predicate Orders(order: seq<string>, keys: set<string>)
  {
    && (forall i, j :: 0 <= i < j < |order| ==> order[i] != order[j])
    && (forall i :: 0 <= i < |order| ==> order[i] in keys)
    && (forall k :: k in keys ==> k in order)
  }

  /** `order` without `x`, the rest in the same order. */
  function Without(order: seq<string>, x: string): (r: seq<string>)
    ensures forall y :: y in r <==> y in order && y != x
    ensures (forall i, j :: 0 <= i < j < |order| ==> order[i] != order[j]) ==>
      (forall i, j :: 0 <= i < j < |r| ==> r[i] != r[j])
  {
    if order == [] then []
    else if order[0] == x then Without(order[1..], x)
    else
      var rest := Without(order[1..], x);
      assert forall i :: 0 <= i < |rest| ==> rest[i] in order[1..];
      [order[0]] + rest
  }

  /** Deleting a key from a dictionary deletes it from the iteration order and keeps the rest. */
  lemma WithoutOrders(order: seq<string>, keys: set<string>, x: string)
    requires Orders(order, keys)
    ensures Orders(Without(order, x), keys - {x})
  {
    var r := Without(order, x);
    forall i | 0 <= i < |r|
      ensures r[i] in keys - {x}
    {
      assert r[i] in r;
    }
  }

  const AttributeNotUniqueMessage := "attribute path is not unique"
  const AttributeNotFoundMessage := "attribute not found"
  const ActionNotUniqueMessage := "action path is not unique"
  const ActionNotFoundMessage := "action not found"

  class PyDevice {
    const name: string
    var attributes: map<string, PyAttribute>
    var attributeOrder: seq<string>
    var actions: map<string, PyAction>
    var actionOrder: seq<string>

    /**
     * No path is both an attribute and an action, each stored attribute
     * and action sits under its own path, and the orders list the keys.
     */
    ghost predicate Valid()
      reads this
    {
      && (forall p :: p in attributes ==> p !in actions)
      && (forall p :: p in attributes ==> attributes[p].path == p)
      && Orders(attributeOrder, attributes.Keys)
      && Orders(actionOrder, actions.Keys)
    }

    /**
     * `Device(name)`: a device with no members, named `name` unless that is
     * missing or empty, in which case a fresh identifier is the name.
     */
    constructor(name: Option<string>, freshId: string)
      ensures this.name == (if name.Some? && name.value != "" then name.value else freshId)
      ensures attributes == map[] && actions == map[]
      ensures Valid()
    {
      this.name := if name.Some? && name.value != "" then name.value else freshId;
      attributes, attributeOrder := map[], [];
      actions, actionOrder := map[], [];
    }

    /**
     * `add_attribute`: a path already used by an attribute or an action is
     * refused; otherwise the attribute is added under its path.
     */
    method AddAttribute(attribute: PyAttribute) returns (r: Result<(), PyException>)
      requires Valid()
      modifies this
      ensures Valid()
      ensures actions == old(actions) && actionOrder == old(actionOrder)
      ensures attribute.path in old(attributes) || attribute.path in old(actions) ==>
        r == Failure(KeyError(AttributeNotUniqueMessage))
        && attributes == old(attributes) && attributeOrder == old(attributeOrder)
      ensures attribute.path !in old(attributes) && attribute.path !in old(actions) ==>
        r == Success(())
        && attributes == old(attributes)[attribute.path := attribute]
        && attributeOrder == old(attributeOrder) + [attribute.path]
    {
      if attribute.path in attributes || attribute.path in actions {
        r := Failure(KeyError(AttributeNotUniqueMessage));
        return;
      }
      attributes := attributes[attribute.path := attribute];
      attributeOrder := attributeOrder + [attribute.path];
      r := Success(());
    }

    /**
     * `remove_attribute`: an unknown path is refused; otherwise exactly
     * that path is deleted.
     */
    method RemoveAttribute(attribute: PyAttribute) returns (r: Result<(), PyException>)
      requires Valid()
      modifies this
      ensures Valid()
      ensures actions == old(actions) && actionOrder == old(actionOrder)
      ensures attribute.path !in old(attributes) ==>
        r == Failure(KeyError(AttributeNotFoundMessage))
        && attributes == old(attributes) && attributeOrder == old(attributeOrder)
      ensures attribute.path in old(attributes) ==>
        r == Success(())
        && attributes == old(attributes) - {attribute.path}
        && attributeOrder == Without(old(attributeOrder), attribute.path)
    {
      if attribute.path !in attributes {
        r := Failure(KeyError(AttributeNotFoundMessage));
        return;
      }
      WithoutOrders(attributeOrder, attributes.Keys, attribute.path);
      attributes := attributes - {attribute.path};
      attributeOrder := Without(attributeOrder, attribute.path);
      r := Success(());
    }

    /**
     * `add_action`: a path already used by an attribute or an action is
     * refused; otherwise the action is added under its path.
     */
    method AddAction(action: PyAction) returns (r: Result<(), PyException>)
      requires Valid()
      modifies this
      ensures Valid()
      ensures attributes == old(attributes) && attributeOrder == old(attributeOrder)
      ensures action.path in old(attributes) || action.path in old(actions) ==>
        r == Failure(KeyError(ActionNotUniqueMessage))
        && actions == old(actions) && actionOrder == old(actionOrder)
      ensures action.path !in old(attributes) && action.path !in old(actions) ==>
        r == Success(())
        && actions == old(actions)[action.path := action]
        && actionOrder == old(actionOrder) + [action.path]
    {
      if action.path in attributes || action.path in actions {
        r := Failure(KeyError(ActionNotUniqueMessage));
        return;
      }
      actions := actions[action.path := action];
      actionOrder := actionOrder + [action.path];
      r := Success(());
    }

    /**
     * `remove_action` as written: an unknown path is refused, and a known
     * one is stored again instead of deleted, so the path stays.
     */
    method RemoveAction(action: PyAction) returns (r: Result<(), PyException>)
      requires Valid()
      modifies this
      ensures Valid()
      ensures attributes == old(attributes) && attributeOrder == old(attributeOrder)
      ensures action.path !in old(actions) ==>
        r == Failure(KeyError(ActionNotFoundMessage)) && actions == old(actions)
      ensures action.path in old(actions) ==>
        r == Success(()) && actions == old(actions)[action.path := action]
      ensures actions.Keys == old(actions.Keys) && actionOrder == old(actionOrder)
    {
      if action.path !in actions {
        r := Failure(KeyError(ActionNotFoundMessage));
        return;
      }
      actions := actions[action.path := action];
      r := Success(());
    }

    /**
     * `remove_action` as evidently intended: like `remove_attribute`, an
     * unknown path is refused and a known one is deleted.
     */
    method RemoveActionIntended(action: PyAction) returns (r: Result<(), PyException>)
      requires Valid()
      modifies this
      ensures Valid()
      ensures attributes == old(attributes) && attributeOrder == old(attributeOrder)
      ensures action.path !in old(actions) ==>
        r == Failure(KeyError(ActionNotFoundMessage))
        && actions == old(actions) && actionOrder == old(actionOrder)
      ensures action.path in old(actions) ==>
        r == Success(())
        && actions == old(actions) - {action.path}
        && actionOrder == Without(old(actionOrder), action.path)
      ensures action.path !in actions
    {
      if action.path !in actions {
        r := Failure(KeyError(ActionNotFoundMessage));
        return;
      }
      WithoutOrders(actionOrder, actions.Keys, action.path);
      actions := actions - {action.path};
      actionOrder := Without(actionOrder, action.path);
      r := Success(());
    }
  }
}
