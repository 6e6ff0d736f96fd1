# uncord `Bot`: controller registry and interaction dispatcher, in Dafny

This project models the core of the `Bot` class of uncord, a small harness that
routes Discord interactions to controller classes. It covers these parts:

- **The registry.** `addControllers` throws away the controller map and builds a
  new one. Each class is stored under its routing key: its button-action tag if
  that is truthy, otherwise its slash-command builder's name. `getController`
  looks a name up.
- **The dispatcher.** `onInteractionCreate` classifies an interaction.
  `onCommandInteraction` routes a command by its name. `onButtonInteraction`
  decodes the button's `customId` as `key:arg…`.
- **The error boundary.** `runSecure` wraps each controller call.
- **The command manifest.** This is the selection step of `createCommands`.
- **The initializer queue.** `addInitializer` appends and `runInitializers`
  runs the queue in order.

Files, one module each:

- `controllers.dfy` (`Controllers`): a controller class as the registry sees it.
  It has an identity, an optional command builder and an optional button tag.
  The module also holds the routing-key rule and the TypeError
  (`ReadOfUndefined`) that the source raises when a field is missing.
- `registry.dfy` (`Registry`): a JavaScript `Map` as an ordered map (`JsMap`:
  key insertion order plus entries). It models `Map.set`, the map that
  `addControllers` builds (`Build`), lookup (`Resolve`) and the manifest
  (`CreateCommands`). It proves the lemmas on which keys are present, which
  class wins and in what order keys are iterated.
- `custom_id.dfy` (`CustomId`): `split(':')`, `join(':')` and the button
  decode, with both round trips.
- `dispatch.dfy` (`Dispatch`): the handlers as functions from the bot's
  `controllersMap` and an interaction to a trace of effects. The effects are
  logged errors, controller calls, edited replies and rejected promises.
  The private handlers only read `controllersMap`, so they take it as a
  parameter.
- `bot.dfy` (`Bots`): the `Bot` class. Its fields are `controllersMap` and
  `initializers`. `AddControllers` is a loop proved against the specification
  functions `Build` and `FirstUnkeyed` above. `RunInitializers` is a loop
  whose contract states its result directly over the queue. The class
  invariant `Valid` keeps the map well formed, which the manifest needs.

Abstractions:

- **Controller instances.** A controller instance is identified with its class.
  The typedi `Service` decorator makes `Container.get` return one singleton per
  class.
- **Whether a controller throws.** This is a parameter
  `throws: ControllerClass -> bool`. It says whether `controller.run(...)`
  throws synchronously.
- **Which initializers fail.** This is a parameter `fails`.

Behaviour of the code a reader might not expect:

- **A missing routing key.** A class with neither a truthy tag nor a builder is
  not rejected before anything is registered. The fresh map has already
  replaced the old one and holds the classes before the faulty one. The
  TypeError comes after that (`Bots.Bot.AddControllers`).
- **Both kinds on one class.** The two kinds of descriptor are not exclusive in
  the code. A class with both a tag and a builder is routed by its tag, but its
  command is still published (`Dispatch.CommandShadowedByButtonTag`).
- **Buttons before any registration.** The button path does not guard against
  a missing map. A button press before any `addControllers` rejects with a
  TypeError. The command path logs instead.
- **Map order.** The order of the map is observable. The manifest follows the
  first time each key was set, not the last.

## Model

| member | source | states |
|---|---|---|
| `Controllers.RoutingKey` | src/bot.ts:46-51 | The key is the button tag when it is truthy (defined and non-empty), otherwise the builder's name. There is no key exactly when neither field is usable. |
| `Controllers.FirstUnkeyed` | src/bot.ts:45-51 | Gives the index of the first class whose `.name` read fails. Every class before it has a key. It equals the length exactly when all classes have keys. |
| `Registry.Set` | src/bot.ts:53 | `Map.set` keeps the map well formed: each key appears once in the order. The key's value becomes the new class and other entries are unchanged. The order only grows, by at most the new key. |
| `Registry.Build` | src/bot.ts:43-54 | The map built from a fresh `new Map()` by one `set` per class is well formed. |
| `Registry.BuildKeys` | src/bot.ts:42-54 | The built map holds exactly the routing keys of the classes passed in, and no others. |
| `Registry.BuildLastWins` | src/bot.ts:45-53 | For every key, the stored class is the last class passed in with that key (last wins). |
| `Registry.BuildOrder` | src/bot.ts:53 | The map iterates its keys in the order of their first occurrence. A later duplicate overwrites the value but does not move the key. |
| `Registry.Resolve` | src/bot.ts:64-70 | `getController` returns null exactly when the name is not a key. It returns the stored class otherwise. On a map that was never set it is a TypeError reading `get`. |
| `Registry.ResolveAfterRegistration` | src/bot.ts:42-70 | After `addControllers(cs)`, a name resolves if and only if it is a key of `cs`, and then to the last class of `cs` with that key. |
| `Registry.ReplacedRegistryForgets` | src/bot.ts:43 | Registering again replaces the map. A key present only in the earlier call no longer resolves. |
| `Registry.CreateCommands` | src/bot.ts:173-176 | A schema is in the manifest exactly when some map entry carries it as its builder. Button-only entries contribute nothing. An unset map is a TypeError, raised before the `try`. The one-to-one correspondence is `Registry.ManifestPositions`. |
| `Registry.Values` | src/bot.ts:174 | `controllersMap.values()` yields one class per key, in iteration order: the i-th value is the class stored under the i-th key. Every stored class appears. |
| `Registry.Schemas` | src/bot.ts:175-176 | The filter/map step keeps only command-bearing classes, so its output is no longer than its input. |
| `Registry.SchemasPositions` | src/bot.ts:175-176 | The selected schemas correspond one to one, in order, to the command-bearing input classes: strictly increasing positions cover exactly those classes, and the j-th schema is the builder at the j-th position. |
| `Registry.SchemasAppend` | src/bot.ts:174-176 | The filter/map step distributes over concatenation. It keeps the order of its input. |
| `Registry.SchemasMember` | src/bot.ts:175-176 | A schema is selected exactly when some input class carries it. |
| `Registry.ManifestPositions` | src/bot.ts:173-176 | The manifest holds exactly one schema per command-bearing map entry, in map iteration order: strictly increasing positions in the key order cover exactly the entries with a builder, and the j-th schema is the builder stored at the j-th of them. |
| `Registry.ManifestOrder` | src/bot.ts:174-176 | Two command-bearing entries appear in the manifest in map iteration order. |
| `CustomId.Split` | src/bot.ts:141 | `split(':')` yields at least one piece. No piece contains `':'`. There is exactly one piece when the input has no `':'`. |
| `CustomId.Join` | src/bot.ts:146 | `join(':')` starts with its first piece. Joining more than one piece puts a `':'` in the result. |
| `CustomId.JoinSplit` | src/bot.ts:141 | Joining the pieces of a split with `':'` gives back the original string. |
| `CustomId.SplitJoin` | src/bot.ts:141 | Splitting a join of `':'`-free pieces gives back the pieces. |
| `CustomId.SplitHead` | src/bot.ts:141 | A `':'`-free head followed by `':'` splits off as exactly the first piece. |
| `CustomId.Decode` | src/bot.ts:140-146 | The decoded name never contains `':'`. Without `':'`, the name is the whole `customId` and the argument is empty. Otherwise `customId == name + ":" + arg`. |
| `CustomId.DecodeEncoded` | src/bot.ts:141-146 | For a `':'`-free key, `key + ":" + arg` decodes back to `(key, arg)` for any argument, including one that contains `':'`. |
| `CustomId.DecodeExample` | src/bot.ts:141-146 | `"key:a:b:c"` decodes to `("key", "a:b:c")`. |
| `Dispatch.RunSecure` | src/bot.ts:78-92 | The controller is called once. If the call throws, one error is logged. The generic `'Whoops... Something went wrong'` reply is sent once, and only for an acknowledged command (deferred or replied). Nothing is rethrown. If the call does not throw, nothing is logged or sent. |
| `Dispatch.OnCommandInteraction` | src/bot.ts:120-137 | An unset map logs exactly one "no controllers" error. An unknown command name logs exactly one "not found" error. Neither calls a controller. A controller is called exactly when the name is registered. |
| `Dispatch.OnButtonInteraction` | src/bot.ts:139-149 | An unregistered decoded name does nothing and logs nothing. An unset map is a rejected TypeError (`get` of undefined). A controller is called exactly when the decoded name is registered. A button never gets a reply. |
| `Dispatch.OnInteractionCreate` | src/bot.ts:151-157 | An interaction that is neither command nor button does nothing. At most one controller is called, exactly when the routing key is registered. It is the stored class, called with the decoded argument for buttons. Replies go only to acknowledged commands. A rejection happens only for a button with an unset map. |
| `Dispatch.RoutedDispatchRunsSecure` | src/bot.ts:133-147 | A routed interaction is exactly one `runSecure` call for the stored class. |
| `Dispatch.FailingControllerReply` | src/bot.ts:82-91 | When the routed controller throws, one error is logged. One generic reply is sent if the interaction is an acknowledged command, none otherwise. |
| `Dispatch.DispatchAfterRegistration` | src/bot.ts:42-149 | After `addControllers(cs)`, dispatch calls the last class of `cs` registered under the interaction's key. An unregistered key calls nothing. |
| `Dispatch.CommandShadowedByButtonTag` | src/bot.ts:47-53 | A class with both a truthy tag and a builder (with a different name) is published in the manifest. Its command still finds no controller and logs "not found". |
| `Bots.Bot.constructor` | src/bot.ts:25-28 | A new bot has no controller map (`undefined`) and no initializers. |
| `Bots.Bot.AddControllers` | src/bot.ts:42-57 | Sets the map to the one built from the classes up to the first key-less one, replacing the old map. It succeeds exactly when every class has a key. Otherwise it fails with a TypeError reading `name`. The initializers are unchanged. |
| `Bots.Bot.GetController` | src/bot.ts:64-70 | Returns null exactly when the map is set and lacks the name. Returns the stored class when the name is present. Fails with a TypeError before any `addControllers`. |
| `Bots.Bot.CreateCommands` | src/bot.ts:173-176 | On the bot's own map: a TypeError before any `addControllers`. Otherwise a schema is published exactly when some stored class carries it as its builder. That there is one schema per such class, in map iteration order, is `Registry.ManifestPositions` applied to the bot's map. |
| `Bots.Bot.AddInitializer` | src/bot.ts:72-76 | Appends the initializer after those already queued. The map is unchanged, and so is the class invariant. |
| `Bots.Bot.RunInitializers` | src/bot.ts:103-107 | Initializers are started in queue order, each once. The run succeeds exactly when none fails, and then runs all of them. Otherwise it stops right after the first failing one. |

## Left out

- Discord client plumbing is not modelled: `Client` and `REST` construction,
  `login`, the `'ready'` handler, `start` and `client.on` listener registration
  (src/bot.ts:30-40, 94-118, 159-161). These are network and event I/O.
- The `!setup` message handler and the REST `put` of the manifest are not
  modelled (src/bot.ts:163-171, 178-187). They are remote calls. Only the
  schema selection is modelled. `toJSON()` is the builder library's own
  serialiser, so the manifest holds the builder values.
- The typedi container is not modelled (`setupContainer`, `Container.get`). The
  instance returned is identified with its class.
- src/decorators.ts is not modelled. It only attaches the `slashCommandBuilder`
  and `buttonAction` fields that `ControllerClass` holds.
- The controller interfaces are not modelled. They declare `run` and contain no
  logic.
- Console output is an abstract `ErrorLogged` entry, not the formatted text.
- Concurrency between interactions is not modelled. Each dispatch is a function
  of the map alone.
- `Dispatch.RunSecure` models only synchronous throws. `fn(interaction)` is not
  awaited, so a rejection of the async `controller.run` escapes the boundary
  unlogged. A failure of `editReply` inside the `catch` would also reject.
  Neither is modelled.
- `Bots.Bot.RunInitializers` models each initializer only by whether it fails.
  What an initializer does is opaque. The awaiting itself is not modelled:
  sequential awaits run the initializers one after another, and that order is
  what the model keeps.
