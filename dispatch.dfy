/**
 * The interaction dispatcher: `onInteractionCreate` classifies an
 * interaction, `onCommandInteraction` and `onButtonInteraction` derive its
 * routing key and look the controller up, and `runSecure` is the error
 * boundary around the controller call. Console output, controller calls and
 * replies are recorded as a trace of effects.
 */
module Dispatch {
  import opened Controllers
  import opened Registry
  import opened CustomId

  /** The three kinds `onInteractionCreate` tells apart. */
  datatype Interaction =
    | CommandInteraction(commandName: string, deferred: bool, replied: bool)
    | ButtonInteraction(customId: string)
    | OtherInteraction

  /** Which `console.error` call was made. */
  datatype LogEntry = NoControllersAdded | ControllerNotFound | ControllerFailed

  datatype Effect =
    | ErrorLogged(entry: LogEntry)
      /** `controller.run(i)` (argument None) or `controller.run(i, arg)`. */
    | Invoked(controller: ControllerClass, argument: Option<string>)
      /** `interaction.editReply(text)`. */
    | ReplyEdited(text: string)
      /** A TypeError that escapes the handler as a rejected promise. */
    | Rejected(fault: Fault)

  type Trace = seq<Effect>

  const FailureReply: string := "Whoops... Something went wrong"

  predicate IsLog(e: Effect) { e.ErrorLogged? }
  predicate IsInvocation(e: Effect) { e.Invoked? }
  predicate IsReply(e: Effect) { e.ReplyEdited? }
  predicate IsRejection(e: Effect) { e.Rejected? }

  /** Number of effects of `t` that satisfy `p`. */
  function Count(t: Trace, p: Effect -> bool): (n: nat)
    ensures n <= |t|
    ensures n == 0 <==> forall k :: 0 <= k < |t| ==> !p(t[k])
  {
    if t == [] then 0 else (if p(t[0]) then 1 else 0) + Count(t[1..], p)
  }

  lemma {:induction false} CountAppend(a: Trace, b: Trace, p: Effect -> bool)
    ensures Count(a + b, p) == Count(a, p) + Count(b, p)
  {
    if a == [] {
      assert a + b == b;
    } else {
      assert (a + b)[1..] == a[1..] + b;
      CountAppend(a[1..], b, p);
    }
  }

  /** A command interaction that was already deferred or replied to. */
  predicate Acknowledged(i: Interaction)
  {
    i.CommandInteraction? && (i.deferred || i.replied)
  }

  /**
   * `runSecure(interaction, fn)`: the controller is called once; if the call
   * throws, the error is logged once and, only for an acknowledged command,
   * the generic failure reply is sent once. Nothing escapes.
   */
  function RunSecure(i: Interaction, c: ControllerClass, arg: Option<string>, throws: bool): (t: Trace)
    ensures t != [] && t[0] == Invoked(c, arg)
    ensures Count(t, IsInvocation) == 1
    ensures Count(t, IsLog) == if throws then 1 else 0
    ensures Count(t, IsReply) == if throws && Acknowledged(i) then 1 else 0
    ensures Count(t, IsRejection) == 0
    ensures forall k :: 0 <= k < |t| && t[k].ReplyEdited? ==> t[k].text == FailureReply
    ensures forall k :: 0 <= k < |t| && t[k].ErrorLogged? ==> t[k].entry == ControllerFailed
  {
    var reply := if Acknowledged(i) then [ReplyEdited(FailureReply)] else [];
    var handler := if throws then [ErrorLogged(ControllerFailed)] + reply else [];
    CountAppend([Invoked(c, arg)], handler, IsInvocation);
    CountAppend([Invoked(c, arg)], handler, IsLog);
    CountAppend([Invoked(c, arg)], handler, IsReply);
    CountAppend([Invoked(c, arg)], handler, IsRejection);
    [Invoked(c, arg)] + handler
  }

  /** The routing key an interaction is looked up under. */
  function RouteKey(i: Interaction): Option<string>
  {
    match i
    case CommandInteraction(name, _, _) => Some(name)
    case ButtonInteraction(customId) => Some(Decode(customId).name)
    case OtherInteraction => None
  }

  /** The extra argument the controller receives: the decoded tail, for buttons only. */
  function Argument(i: Interaction): Option<string>
  {
    if i.ButtonInteraction? then Some(Decode(i.customId).arg) else None
  }

  /** The interaction has a routing key registered in the map. */
  predicate Routed(registry: Option<JsMap>, i: Interaction)
  {
    registry.Some? && RouteKey(i).Some? && RouteKey(i).value in registry.value.entries
  }

  /**
   * `onCommandInteraction`: an unset map or an unknown command name is
   * logged once and ends the dispatch; otherwise the controller runs inside
   * the error boundary.
   */
  function OnCommandInteraction(registry: Option<JsMap>, i: Interaction, throws: ControllerClass -> bool): (t: Trace)
    requires i.CommandInteraction?
    ensures Count(t, IsInvocation) == if Routed(registry, i) then 1 else 0
    ensures registry.None? ==> t == [ErrorLogged(NoControllersAdded)]
    ensures registry.Some? && !Routed(registry, i) ==> t == [ErrorLogged(ControllerNotFound)]
    ensures Count(t, IsRejection) == 0
  {
    if registry.None? then [ErrorLogged(NoControllersAdded)]
    else if i.commandName !in registry.value.entries then [ErrorLogged(ControllerNotFound)]
    else
      var c := Resolve(registry, i.commandName).value.value;
      RunSecure(i, c, None, throws(c))
  }

  /**
   * `onButtonInteraction`: the decoded name is looked up without a guard on
   * the map; a miss does nothing at all.
   */
  function OnButtonInteraction(registry: Option<JsMap>, i: Interaction, throws: ControllerClass -> bool): (t: Trace)
    requires i.ButtonInteraction?
    ensures Count(t, IsInvocation) == if Routed(registry, i) then 1 else 0
    ensures registry.None? ==> t == [Rejected(ReadOfUndefined("get"))]
    ensures registry.Some? && !Routed(registry, i) ==> t == []
    ensures Count(t, IsReply) == 0 && Count(t, IsRejection) == (if registry.None? then 1 else 0)
  {
    var route := Decode(i.customId);
    match Resolve(registry, route.name)
    case Err(fault) => [Rejected(fault)]
    case Ok(None) => []
    case Ok(Some(c)) => RunSecure(i, c, Some(route.arg), throws(c))
  }

  /**
   * `onInteractionCreate`: commands and buttons are dispatched, any other
   * interaction is ignored. At most one controller runs, exactly when the
   * routing key is registered, and it is the class stored under that key.
   */
  function OnInteractionCreate(registry: Option<JsMap>, i: Interaction, throws: ControllerClass -> bool): (t: Trace)
    ensures i.OtherInteraction? ==> t == []
    ensures Count(t, IsInvocation) == if Routed(registry, i) then 1 else 0
    ensures Routed(registry, i) ==>
      t[0] == Invoked(registry.value.entries[RouteKey(i).value], Argument(i))
    ensures Count(t, IsReply) > 0 ==> Acknowledged(i)
    ensures Count(t, IsRejection) > 0 <==> i.ButtonInteraction? && registry.None?
  {
    match i
    case CommandInteraction(_, _, _) => OnCommandInteraction(registry, i, throws)
    case ButtonInteraction(_) => OnButtonInteraction(registry, i, throws)
    case OtherInteraction => []
  }

  /** A routed interaction is exactly one guarded controller call. */
  lemma RoutedDispatchRunsSecure(registry: Option<JsMap>, i: Interaction, throws: ControllerClass -> bool)
    requires Routed(registry, i)
    ensures var c := registry.value.entries[RouteKey(i).value];
      OnInteractionCreate(registry, i, throws) == RunSecure(i, c, Argument(i), throws(c))
  {
  }

  /**
   * A controller that throws while handling an acknowledged command: the
   * failure is logged once and the generic reply is sent once; for any other
   * interaction kind, nothing is sent.
   */
  lemma FailingControllerReply(registry: Option<JsMap>, i: Interaction, throws: ControllerClass -> bool)
    requires Routed(registry, i)
    requires throws(registry.value.entries[RouteKey(i).value])
    ensures Count(OnInteractionCreate(registry, i, throws), IsLog) == 1
    ensures Count(OnInteractionCreate(registry, i, throws), IsReply) == if Acknowledged(i) then 1 else 0
  {
    RoutedDispatchRunsSecure(registry, i, throws);
  }

  /**
   * Dispatch against the registry `addControllers(cs)` built: the class that
   * runs is the last class of `cs` registered under the interaction's key,
   * and an unregistered key runs nothing.
   */
  lemma DispatchAfterRegistration(cs: seq<ControllerClass>, i: Interaction, throws: ControllerClass -> bool)
    requires AllKeyed(cs) && !i.OtherInteraction?
    ensures var t := OnInteractionCreate(Some(Build(cs)), i, throws);
      && (RouteKey(i).value in Keys(cs) ==>
            Count(t, IsInvocation) == 1 && t[0] == Invoked(cs[LastIndex(Keys(cs), RouteKey(i).value)], Argument(i)))
      && (RouteKey(i).value !in Keys(cs) ==> Count(t, IsInvocation) == 0)
  {
    BuildKeys(cs);
    if RouteKey(i).value in Keys(cs) {
      BuildLastWins(cs, RouteKey(i).value);
    }
  }

  /**
   * A class carrying both a truthy button tag and a command builder is
   * registered under the tag, yet its command is still published: invoking
   * that command then finds no controller.
   */
  lemma CommandShadowedByButtonTag(c: ControllerClass, i: Interaction, throws: ControllerClass -> bool)
    requires Truthy(c.buttonAction) && c.slashCommandBuilder.Some?
    requires c.slashCommandBuilder.value.name != c.buttonAction.value
    requires i.CommandInteraction? && i.commandName == c.slashCommandBuilder.value.name
    ensures CreateCommands(Some(Build([c]))) == Ok([c.slashCommandBuilder.value])
    ensures OnInteractionCreate(Some(Build([c])), i, throws) == [ErrorLogged(ControllerNotFound)]
  {
    assert [c][..0] == [] && [c][0] == c;
    assert Build([c][..0]) == Empty;
    assert RoutingKey(c) == c.buttonAction;
    var m := Build([c]);
    assert m == Set(Empty, c.buttonAction.value, c);
    assert m == JsMap([c.buttonAction.value], map[c.buttonAction.value := c]);
    assert Values(m) == [c];
    assert [c][1..] == [];
    assert Schemas([c]) == [c.slashCommandBuilder.value];
  }
}
