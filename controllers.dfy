/**
 * Controller descriptors: the static metadata the decorators attach to a
 * controller class (a slash-command builder or a button-action tag), and
 * the rule that turns that metadata into a routing key.
 */
module Controllers {

  datatype Option<+T> = None | Some(value: T)

  datatype Result<+T, +E> = Ok(value: T) | Err(error: E)

  /** A JavaScript TypeError raised by reading `property` of `undefined`. */
  datatype Fault = ReadOfUndefined(property: string)

  /**
   * What `CommandBuilder(name, description, fn)` builds. Its `toJSON()`
   * serialisation is the library's; the model publishes the builder value itself.
   */
  datatype CommandSchema = CommandSchema(name: string, description: string)

  /**
   * A controller class as the registry sees it: an identity (the class
   * itself) and the two optional static fields `slashCommandBuilder` and
   * `buttonAction`.
   */
  datatype ControllerClass = ControllerClass(
    id: nat,
    slashCommandBuilder: Option<CommandSchema>,
    buttonAction: Option<string>)

  /** JavaScript truthiness of an optional string: defined and not empty. */
  predicate Truthy(s: Option<string>)
  {
    s.Some? && s.value != ""
  }

  /**
   * The key `addControllers` stores a class under: the button tag when it is
   * truthy, else the builder's name; None when reading `.name` would hit
   * `undefined`.
   */
  function RoutingKey(c: ControllerClass): (r: Option<string>)
    ensures r.None? <==> !Truthy(c.buttonAction) && c.slashCommandBuilder.None?
    ensures Truthy(c.buttonAction) ==> r == c.buttonAction
    ensures !Truthy(c.buttonAction) && r.Some? ==> r.value == c.slashCommandBuilder.value.name
  {
    if Truthy(c.buttonAction) then c.buttonAction
    else if c.slashCommandBuilder.Some? then Some(c.slashCommandBuilder.value.name)
    else None
  }

  /** Every class in `cs` has a routing key. */
  predicate AllKeyed(cs: seq<ControllerClass>)
  {
    forall j :: 0 <= j < |cs| ==> RoutingKey(cs[j]).Some?
  }

  /**
   * Index of the first class without a routing key (where registration
   * throws), or |cs| when there is none.
   */
  function FirstUnkeyed(cs: seq<ControllerClass>): (r: nat)
    ensures r <= |cs|
    ensures AllKeyed(cs[..r])
    ensures r < |cs| ==> RoutingKey(cs[r]).None?
    ensures r == |cs| <==> AllKeyed(cs)
  {
    if cs == [] then 0
    else if RoutingKey(cs[0]).None? then 0
    else
      var rest := FirstUnkeyed(cs[1..]);
      rest + 1
  }

  /** The first key-less class is the one where a scan that saw only keyed classes stops. */
  lemma {:induction false} FirstUnkeyedAt(cs: seq<ControllerClass>, i: nat)
    requires i <= |cs| && AllKeyed(cs[..i])
    requires i < |cs| ==> RoutingKey(cs[i]).None?
    ensures FirstUnkeyed(cs) == i
  {
    if i > 0 {
      assert cs[..i][0] == cs[0];
      var tail := cs[1..];
      assert tail[..i - 1] == cs[..i][1..];
      assert i - 1 < |tail| ==> tail[i - 1] == cs[i];
      FirstUnkeyedAt(tail, i - 1);
    }
  }
}
