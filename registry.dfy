/**
 * The controller registry: the JavaScript `Map` from routing key to
 * controller class that `addControllers` builds, its lookup
 * (`getController`) and the command manifest read from it
 * (`createCommands`).
 */
module Registry {
  import opened Controllers

  /**
   * A JavaScript `Map<string, ControllerClass>`: its entries and the
   * insertion order of its keys, which is the order `values()` iterates in.
   */
  datatype JsMap = JsMap(order: seq<string>, entries: map<string, ControllerClass>)

  /** The order lists every key of the map exactly once. */
  ghost predicate Valid(m: JsMap)
  {
    && (forall a, b :: 0 <= a < b < |m.order| ==> m.order[a] != m.order[b])
    && (forall k :: k in m.order <==> k in m.entries)
  }

  const Empty: JsMap := JsMap([], map[])

  /**
   * `Map.set`: the value for `k` becomes `v`; a new key is appended to the
   * iteration order, an existing key keeps its original position.
   */
  function Set(m: JsMap, k: string, v: ControllerClass): (r: JsMap)
    requires Valid(m)
    ensures Valid(r)
    ensures r.entries.Keys == m.entries.Keys + {k} && r.entries[k] == v
    ensures forall k' :: k' in m.entries && k' != k ==> r.entries[k'] == m.entries[k']
    ensures m.order <= r.order && |r.order| <= |m.order| + 1
  {
    if k in m.entries then JsMap(m.order, m.entries[k := v])
    else JsMap(m.order + [k], m.entries[k := v])
  }

  /** The routing keys of `cs`, one per class, in order. */
  function Keys(cs: seq<ControllerClass>): (ks: seq<string>)
    requires AllKeyed(cs)
    ensures |ks| == |cs|
    ensures forall j :: 0 <= j < |cs| ==> ks[j] == RoutingKey(cs[j]).value
  {
    if cs == [] then []
    else Keys(cs[..|cs| - 1]) + [RoutingKey(cs[|cs| - 1]).value]
  }

  /**
   * The map `addControllers(cs)` leaves behind: a fresh map filled by one
   * `set` per class, in order.
   */
  function Build(cs: seq<ControllerClass>): (m: JsMap)
    requires AllKeyed(cs)
    ensures Valid(m)
  {
    if cs == [] then Empty
    else Set(Build(cs[..|cs| - 1]), RoutingKey(cs[|cs| - 1]).value, cs[|cs| - 1])
  }

  /** One more `set` of the loop in `addControllers`. */
  lemma BuildExtend(cs: seq<ControllerClass>, i: nat)
    requires i < |cs| && AllKeyed(cs[..i]) && RoutingKey(cs[i]).Some?
    ensures AllKeyed(cs[..i + 1])
    ensures Build(cs[..i + 1]) == Set(Build(cs[..i]), RoutingKey(cs[i]).value, cs[i])
  {
    var next := cs[..i + 1];
    assert next[..i] == cs[..i] && next[i] == cs[i];
    assert forall j :: 0 <= j < i ==> next[j] == cs[..i][j];
  }

  /** Position of the last occurrence of `k` in `ks`. */
  function LastIndex(ks: seq<string>, k: string): (r: nat)
    requires k in ks
    ensures r < |ks| && ks[r] == k
    ensures forall j :: r < j < |ks| ==> ks[j] != k
  {
    if ks[|ks| - 1] == k then |ks| - 1
    else
      assert ks == ks[..|ks| - 1] + [ks[|ks| - 1]];
      LastIndex(ks[..|ks| - 1], k)
  }

  /** Position of the first occurrence of `k` in `ks`. */
  function FirstIndex(ks: seq<string>, k: string): (r: nat)
    requires k in ks
    ensures r < |ks| && ks[r] == k
    ensures forall j :: 0 <= j < r ==> ks[j] != k
  {
    if k in ks[..|ks| - 1] then FirstIndex(ks[..|ks| - 1], k) else |ks| - 1
  }

  /** One step of the prefix recursion of Keys. */
  lemma KeysPrefix(cs: seq<ControllerClass>)
    requires AllKeyed(cs) && cs != []
    ensures Keys(cs[..|cs| - 1]) == Keys(cs)[..|cs| - 1]
    ensures Keys(cs) == Keys(cs[..|cs| - 1]) + [RoutingKey(cs[|cs| - 1]).value]
  {
  }

  /** The registry built from `cs` holds exactly the routing keys of `cs`. */
  lemma {:induction false} BuildKeys(cs: seq<ControllerClass>)
    requires AllKeyed(cs)
    ensures forall k :: k in Build(cs).entries <==> k in Keys(cs)
  {
    if cs != [] {
      var p := cs[..|cs| - 1];
      BuildKeys(p);
      KeysPrefix(cs);
    }
  }

  /** For every key, the class stored is the LAST class of `cs` with that key. */
  lemma {:induction false} BuildLastWins(cs: seq<ControllerClass>, k: string)
    requires AllKeyed(cs) && k in Keys(cs)
    ensures k in Build(cs).entries
    ensures Build(cs).entries[k] == cs[LastIndex(Keys(cs), k)]
  {
    var n := |cs|;
    var p := cs[..n - 1];
    var ks := Keys(cs);
    KeysPrefix(cs);
    if ks[n - 1] == k {
      assert LastIndex(ks, k) == n - 1;
    } else {
      assert ks == Keys(p) + [ks[n - 1]];
      assert k in Keys(p);
      BuildLastWins(p, k);
      assert ks[..n - 1] == Keys(p);
      assert LastIndex(ks, k) == LastIndex(Keys(p), k);
    }
  }

  /**
   * The iteration order of the registry built from `cs` is the order in
   * which the keys FIRST appear in `cs`: a later duplicate does not move
   * its key.
   */
  lemma {:induction false} BuildOrder(cs: seq<ControllerClass>)
    requires AllKeyed(cs)
    ensures forall k :: k in Build(cs).order ==> k in Keys(cs)
    ensures FirstSeenOrder(Build(cs).order, Keys(cs))
  {
    BuildKeys(cs);
    if cs != [] {
      var p := cs[..|cs| - 1];
      BuildOrder(p);
      BuildStep(cs);
      FirstSeenOrderAppend(Build(p).order, Keys(p), Keys(cs)[|cs| - 1], Build(cs).order);
    }
  }

  /** `o` lists keys of `ks` in the order of their first occurrence in `ks`. */
  ghost predicate FirstSeenOrder(o: seq<string>, ks: seq<string>)
  {
    forall a, b :: 0 <= a < b < |o| && o[a] in ks && o[b] in ks ==>
      FirstIndex(ks, o[a]) < FirstIndex(ks, o[b])
  }

  /** One `set` either keeps the order or appends a key that was never seen. */
  lemma BuildStep(cs: seq<ControllerClass>)
    requires AllKeyed(cs) && cs != []
    ensures Keys(cs) == Keys(cs[..|cs| - 1]) + [Keys(cs)[|cs| - 1]]
    ensures var p := cs[..|cs| - 1]; var key := Keys(cs)[|cs| - 1];
      || Build(cs).order == Build(p).order
      || (key !in Keys(p) && Build(cs).order == Build(p).order + [key])
  {
    KeysPrefix(cs);
    BuildKeys(cs[..|cs| - 1]);
  }

  lemma FirstSeenOrderAppend(po: seq<string>, pks: seq<string>, key: string, o: seq<string>)
    requires forall k :: k in po ==> k in pks
    requires FirstSeenOrder(po, pks)
    requires o == po || (key !in pks && o == po + [key])
    ensures FirstSeenOrder(o, pks + [key])
  {
    var ks := pks + [key];
    forall a, b | 0 <= a < b < |o| && o[a] in ks && o[b] in ks
      ensures FirstIndex(ks, o[a]) < FirstIndex(ks, o[b])
    {
      assert o[a] == po[a] && po[a] in pks;
      FirstIndexAppend(pks, key, po[a]);
      if b < |po| {
        assert o[b] == po[b] && po[b] in pks;
        FirstIndexAppend(pks, key, po[b]);
      } else {
        FirstIndexAppend(pks, key, key);
      }
    }
  }

  /** Appending to a sequence does not move the first occurrence of a key already in it. */
  lemma FirstIndexAppend(ks: seq<string>, x: string, k: string)
    requires k in ks || k == x
    ensures k in ks ==> FirstIndex(ks + [x], k) == FirstIndex(ks, k)
    ensures k !in ks ==> FirstIndex(ks + [x], k) == |ks|
  {
    assert (ks + [x])[..|ks|] == ks;
  }

  /**
   * `getController`: a miss is `null` (Ok(None)); on a map that was never
   * set, `this.controllersMap.get` reads `get` of `undefined`.
   */
  function Resolve(registry: Option<JsMap>, name: string): (r: Result<Option<ControllerClass>, Fault>)
    ensures r.Err? <==> registry.None?
    ensures r.Err? ==> r.error == ReadOfUndefined("get")
    ensures registry.Some? ==> (r == Ok(None) <==> name !in registry.value.entries)
    ensures r.Ok? && r.value.Some? ==> name in registry.value.entries && r.value.value == registry.value.entries[name]
  {
    match registry
    case None => Err(ReadOfUndefined("get"))
    case Some(m) => if name in m.entries then Ok(Some(m.entries[name])) else Ok(None)
  }

  /**
   * After `addControllers(cs)`, a name resolves exactly when it is the
   * routing key of some class of `cs`, and then to the last such class.
   */
  lemma ResolveAfterRegistration(cs: seq<ControllerClass>, name: string)
    requires AllKeyed(cs)
    ensures name in Keys(cs) ==> Resolve(Some(Build(cs)), name) == Ok(Some(cs[LastIndex(Keys(cs), name)]))
    ensures name !in Keys(cs) ==> Resolve(Some(Build(cs)), name) == Ok(None)
  {
    BuildKeys(cs);
    if name in Keys(cs) {
      BuildLastWins(cs, name);
    }
  }

  /**
   * Registering again replaces the whole registry: a key present only in
   * the earlier set of classes no longer resolves.
   */
  lemma ReplacedRegistryForgets(earlier: seq<ControllerClass>, later: seq<ControllerClass>, name: string)
    requires AllKeyed(earlier) && AllKeyed(later)
    requires name in Keys(earlier) && name !in Keys(later)
    ensures Resolve(Some(Build(earlier)), name).value.Some?
    ensures Resolve(Some(Build(later)), name) == Ok(None)
  {
    ResolveAfterRegistration(earlier, name);
    ResolveAfterRegistration(later, name);
  }

  /** `[...map.values()]`: the stored classes in iteration order. */
  function Values(m: JsMap): (vs: seq<ControllerClass>)
    requires Valid(m)
    ensures |vs| == |m.order|
    ensures forall i :: 0 <= i < |m.order| ==> vs[i] == m.entries[m.order[i]]
    ensures forall k :: k in m.entries ==> m.entries[k] in vs
  {
    var vs := seq(|m.order|, i requires 0 <= i < |m.order| => m.entries[m.order[i]]);
    assert forall k :: k in m.entries ==> vs[FirstIndex(m.order, k)] == m.entries[k];
    vs
  }

  /** `.filter(c => !!c.slashCommandBuilder).map(c => c.slashCommandBuilder.toJSON())` */
  function Schemas(vs: seq<ControllerClass>): (ss: seq<CommandSchema>)
    ensures |ss| <= |vs|
  {
    if vs == [] then []
    else
      (if vs[0].slashCommandBuilder.Some? then [vs[0].slashCommandBuilder.value] else [])
      + Schemas(vs[1..])
  }

  /** Filtering commutes with concatenation: the manifest keeps the order of its input. */
  lemma {:induction false} SchemasAppend(a: seq<ControllerClass>, b: seq<ControllerClass>)
    ensures Schemas(a + b) == Schemas(a) + Schemas(b)
  {
    if a != [] {
      assert (a + b)[1..] == a[1..] + b;
      SchemasAppend(a[1..], b);
    } else {
      assert a + b == b;
    }
  }

  /** A schema is in the manifest exactly when some class carries it; button-only classes contribute nothing. */
  lemma {:induction false} SchemasMember(vs: seq<ControllerClass>, s: CommandSchema)
    ensures s in Schemas(vs) <==> exists i :: 0 <= i < |vs| && vs[i].slashCommandBuilder == Some(s)
  {
    if vs != [] {
      SchemasMember(vs[1..], s);
      if s in Schemas(vs[1..]) {
        var i :| 0 <= i < |vs[1..]| && vs[1..][i].slashCommandBuilder == Some(s);
        assert vs[i + 1].slashCommandBuilder == Some(s);
      }
      if exists i :: 0 <= i < |vs| && vs[i].slashCommandBuilder == Some(s) {
        var i :| 0 <= i < |vs| && vs[i].slashCommandBuilder == Some(s);
        if i > 0 {
          assert vs[1..][i - 1].slashCommandBuilder == Some(s);
        }
      }
    }
  }

  /**
   * The filter/map step keeps exactly the command-bearing classes: `pos`
   * lists their positions in increasing order, one output schema per
   * position, each the builder of the class at that position.
   */
  lemma {:induction false} SchemasPositions(vs: seq<ControllerClass>) returns (pos: seq<nat>)
    ensures |pos| == |Schemas(vs)|
    ensures forall j :: 0 <= j < |pos| ==>
      pos[j] < |vs| && vs[pos[j]].slashCommandBuilder.Some?
      && Schemas(vs)[j] == vs[pos[j]].slashCommandBuilder.value
    ensures forall j, l :: 0 <= j < l < |pos| ==> pos[j] < pos[l]
    ensures forall i :: 0 <= i < |vs| && vs[i].slashCommandBuilder.Some? ==> i in pos
  {
    if vs == [] {
      pos := [];
    } else {
      var rest := SchemasPositions(vs[1..]);
      assert IsPositions(vs[1..], Schemas(vs[1..]), rest);
      pos := PositionsCons(vs, rest);
      assert IsPositions(vs, Schemas(vs), pos);
    }
  }

  /** `pos` lists, increasingly, exactly the command-bearing positions of `vs`, and `ss` their builders. */
  ghost predicate IsPositions(vs: seq<ControllerClass>, ss: seq<CommandSchema>, pos: seq<nat>)
  {
    && |pos| == |ss|
    && (forall j :: 0 <= j < |pos| ==>
          pos[j] < |vs| && vs[pos[j]].slashCommandBuilder.Some? && ss[j] == vs[pos[j]].slashCommandBuilder.value)
    && (forall j, l :: 0 <= j < l < |pos| ==> pos[j] < pos[l])
    && (forall i :: 0 <= i < |vs| && vs[i].slashCommandBuilder.Some? ==> i in pos)
  }

  /** Positions for the tail of `vs`, moved one place right. */
  lemma ShiftPositions(vs: seq<ControllerClass>, rest: seq<nat>) returns (shifted: seq<nat>)
    requires vs != [] && IsPositions(vs[1..], Schemas(vs[1..]), rest)
    ensures |shifted| == |rest|
    ensures forall j :: 0 <= j < |shifted| ==>
      1 <= shifted[j] < |vs| && vs[shifted[j]].slashCommandBuilder.Some?
      && Schemas(vs[1..])[j] == vs[shifted[j]].slashCommandBuilder.value
    ensures forall j, l :: 0 <= j < l < |shifted| ==> shifted[j] < shifted[l]
    ensures forall i :: 1 <= i < |vs| && vs[i].slashCommandBuilder.Some? ==> i in shifted
  {
    var tail := vs[1..];
    shifted := seq(|rest|, j requires 0 <= j < |rest| => rest[j] + 1);
    forall j | 0 <= j < |rest|
      ensures vs[shifted[j]] == tail[rest[j]]
    {
    }
    forall i | 1 <= i < |vs| && vs[i].slashCommandBuilder.Some?
      ensures i in shifted
    {
      assert tail[i - 1] == vs[i];
      var j :| 0 <= j < |rest| && rest[j] == i - 1;
      assert shifted[j] == i;
    }
  }

  /** Positions for `vs` from those of its tail: 0 in front when the head carries a builder. */
  lemma PositionsCons(vs: seq<ControllerClass>, rest: seq<nat>) returns (pos: seq<nat>)
    requires vs != [] && IsPositions(vs[1..], Schemas(vs[1..]), rest)
    ensures IsPositions(vs, Schemas(vs), pos)
  {
    var shifted := ShiftPositions(vs, rest);
    if vs[0].slashCommandBuilder.Some? {
      pos := PositionsWithHead(vs, shifted);
    } else {
      pos := shifted;
      assert Schemas(vs) == Schemas(vs[1..]);
    }
  }

  /** The head carries a builder: its schema comes first, at position 0. */
  lemma PositionsWithHead(vs: seq<ControllerClass>, shifted: seq<nat>) returns (pos: seq<nat>)
    requires vs != [] && vs[0].slashCommandBuilder.Some?
    requires |shifted| == |Schemas(vs[1..])|
    requires forall j :: 0 <= j < |shifted| ==>
      1 <= shifted[j] < |vs| && vs[shifted[j]].slashCommandBuilder.Some?
      && Schemas(vs[1..])[j] == vs[shifted[j]].slashCommandBuilder.value
    requires forall j, l :: 0 <= j < l < |shifted| ==> shifted[j] < shifted[l]
    requires forall i :: 1 <= i < |vs| && vs[i].slashCommandBuilder.Some? ==> i in shifted
    ensures IsPositions(vs, Schemas(vs), pos)
  {
    pos := [0] + shifted;
    var ss := Schemas(vs);
    assert ss == [vs[0].slashCommandBuilder.value] + Schemas(vs[1..]);
    assert |pos| == |ss|;
    forall j | 1 <= j < |pos|
      ensures pos[j] == shifted[j - 1] && ss[j] == Schemas(vs[1..])[j - 1]
    {
    }
    assert forall j :: 0 <= j < |pos| ==>
      pos[j] < |vs| && vs[pos[j]].slashCommandBuilder.Some? && ss[j] == vs[pos[j]].slashCommandBuilder.value;
    assert forall j, l :: 0 <= j < l < |pos| ==> pos[j] < pos[l];
    forall i | 0 <= i < |vs| && vs[i].slashCommandBuilder.Some?
      ensures i in pos
    {
      if i > 0 {
        assert i in shifted;
      }
    }
  }

  /**
   * `createCommands`' selection step: one schema per registry entry that
   * has a slash-command builder. The spread of `controllersMap.values()`
   * runs before the `try`, so an unset map is an uncaught TypeError.
   */
  function CreateCommands(registry: Option<JsMap>): (r: Result<seq<CommandSchema>, Fault>)
    requires registry.Some? ==> Valid(registry.value)
    ensures r.Err? <==> registry.None?
    ensures r.Ok? ==> |r.value| <= |registry.value.order|
    ensures r.Ok? ==> forall s :: s in r.value <==>
      exists k :: k in registry.value.entries && registry.value.entries[k].slashCommandBuilder == Some(s)
  {
    match registry
    case None => Err(ReadOfUndefined("values"))
    case Some(m) =>
      var vs := Values(m);
      forall s ensures s in Schemas(vs) <==>
        exists k :: k in m.entries && m.entries[k].slashCommandBuilder == Some(s)
      {
        SchemasMember(vs, s);
        if exists k :: k in m.entries && m.entries[k].slashCommandBuilder == Some(s) {
          var k :| k in m.entries && m.entries[k].slashCommandBuilder == Some(s);
          var i := FirstIndex(m.order, k);
          assert vs[i].slashCommandBuilder == Some(s);
        }
      }
      Ok(Schemas(vs))
  }

  /**
   * `createCommands` yields exactly one schema per command-bearing entry of
   * the map, in iteration order: `pos` gives, increasingly, the positions in
   * `m.order` of those entries, and the manifest's j-th schema is the
   * builder stored at the j-th of them. Button-only entries have no position.
   */
  lemma ManifestPositions(m: JsMap) returns (pos: seq<nat>)
    requires Valid(m)
    ensures CreateCommands(Some(m)).Ok?
    ensures |pos| == |CreateCommands(Some(m)).value|
    ensures forall j :: 0 <= j < |pos| ==>
      && pos[j] < |m.order|
      && m.entries[m.order[pos[j]]].slashCommandBuilder.Some?
      && CreateCommands(Some(m)).value[j] == m.entries[m.order[pos[j]]].slashCommandBuilder.value
    ensures forall j, l :: 0 <= j < l < |pos| ==> pos[j] < pos[l]
    ensures forall i :: 0 <= i < |m.order| && m.entries[m.order[i]].slashCommandBuilder.Some? ==> i in pos
  {
    var vs := Values(m);
    pos := SchemasPositions(vs);
  }

  /**
   * Two command-bearing entries appear in the manifest in the registry's
   * iteration order.
   */
  lemma ManifestOrder(m: JsMap, a: nat, b: nat)
    requires Valid(m) && a < b < |m.order|
    requires m.entries[m.order[a]].slashCommandBuilder.Some?
    requires m.entries[m.order[b]].slashCommandBuilder.Some?
    ensures CreateCommands(Some(m)).Ok?
    ensures exists i, j ::
      && 0 <= i < j < |CreateCommands(Some(m)).value|
      && CreateCommands(Some(m)).value[i] == m.entries[m.order[a]].slashCommandBuilder.value
      && CreateCommands(Some(m)).value[j] == m.entries[m.order[b]].slashCommandBuilder.value
  {
    var pos := ManifestPositions(m);
    var i :| 0 <= i < |pos| && pos[i] == a;
    var j :| 0 <= j < |pos| && pos[j] == b;
  }
}
