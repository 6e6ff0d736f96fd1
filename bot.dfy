/**
 * The `Bot` object: its controller map, replaced by every `addControllers`
 * call, and its list of initializers, appended to by `addInitializer` and
 * run in order by `runInitializers`.
 */
module Bots {
  import opened Controllers
  import opened Registry

  /** An initializer callback; which ones fail is a parameter of the run. */
  datatype Initializer = Initializer(id: nat)

  class Bot {
    /** `controllersMap`: None until the first `addControllers` (the field starts `undefined`). */
    var controllersMap: Option<JsMap>
    var initializers: seq<Initializer>

    ghost predicate Valid()
      reads this
    {
      controllersMap.Some? ==> Registry.Valid(controllersMap.value)
    }

    constructor ()
      ensures Valid()
      ensures controllersMap == None && initializers == []
    {
      controllersMap := None;
      initializers := [];
    }

    /**
     * `addControllers`: a new map replaces the old one, then each class is
     * `set` under its routing key. A class with neither a truthy button tag
     * nor a builder throws when `.name` is read, leaving the map filled up to
     * that class.
     */
    method AddControllers(controllers: seq<ControllerClass>) returns (outcome: Result<(), Fault>)
      requires Valid()
      modifies this
      ensures Valid()
      ensures outcome.Ok? <==> AllKeyed(controllers)
      ensures outcome.Err? ==> outcome.error == ReadOfUndefined("name")
      ensures controllersMap == Some(Build(controllers[..FirstUnkeyed(controllers)]))
      ensures initializers == old(initializers)
    {
      controllersMap := Some(Empty);
      var i := 0;
      while i < |controllers|
        invariant 0 <= i <= |controllers|
        invariant AllKeyed(controllers[..i])
        invariant controllersMap == Some(Build(controllers[..i]))
        invariant initializers == old(initializers)
      {
        var key := RoutingKey(controllers[i]);
        if key.None? {
          FirstUnkeyedAt(controllers, i);
          outcome := Err(ReadOfUndefined("name"));
          return;
        }
        BuildExtend(controllers, i);
        controllersMap := Some(Set(controllersMap.value, key.value, controllers[i]));
        i := i + 1;
      }
      assert controllers[..i] == controllers;
      FirstUnkeyedAt(controllers, i);
      outcome := Ok(());
    }

    /** `getController`: `null` for an unknown name, a TypeError before any `addControllers`. */
    function GetController(name: string): (r: Result<Option<ControllerClass>, Fault>)
      reads this
      ensures r.Err? <==> controllersMap.None?
      ensures r == Ok(None) <==> controllersMap.Some? && name !in controllersMap.value.entries
      ensures r.Ok? && r.value.Some? ==> r.value.value == controllersMap.value.entries[name]
    {
      Resolve(controllersMap, name)
    }

    /**
     * `createCommands`' selection from the bot's own map: a TypeError before
     * any `addControllers`, otherwise the builders of the stored classes.
     */
    function CreateCommands(): (r: Result<seq<CommandSchema>, Fault>)
      reads this
      requires Valid()
      ensures r.Err? <==> controllersMap.None?
      ensures r.Ok? ==> forall s :: s in r.value <==>
        exists k :: k in controllersMap.value.entries && controllersMap.value.entries[k].slashCommandBuilder == Some(s)
    {
      Registry.CreateCommands(controllersMap)
    }

    /** `addInitializer`: appended after the ones already queued. */
    method AddInitializer(init: Initializer)
      requires Valid()
      modifies this
      ensures Valid()
      ensures initializers == old(initializers) + [init]
      ensures controllersMap == old(controllersMap)
    {
      initializers := initializers + [init];
    }

    /**
     * `runInitializers`: each queued initializer is awaited in order, once;
     * the first one that fails aborts the run and its failure propagates.
     * `ran` lists the initializers started.
     */
    method RunInitializers(fails: Initializer -> bool) returns (ran: seq<Initializer>, ok: bool)
      ensures ran <= initializers
      ensures ok <==> forall j :: 0 <= j < |initializers| ==> !fails(initializers[j])
      ensures ok ==> ran == initializers
      ensures !ok ==> ran != [] && fails(ran[|ran| - 1])
      ensures forall j :: 0 <= j < |ran| - 1 ==> !fails(ran[j])
    {
      ran := [];
      var i := 0;
      while i < |initializers|
        invariant 0 <= i <= |initializers|
        invariant ran == initializers[..i]
        invariant forall j :: 0 <= j < i ==> !fails(initializers[j])
      {
        ran := ran + [initializers[i]];
        if fails(initializers[i]) {
          ok := false;
          return;
        }
        i := i + 1;
      }
      ok := true;
    }
  }
}
