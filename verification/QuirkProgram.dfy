/**
  Quirk programs (`_unwrap_call_chain` and the two passes of `extract_v2_quirks` of
  tools/zhaquirks_transpiler.py).

  A program is the list of its assignments and expression statements in the order the
  transpiler visits them. The first pass collects base quirks, the second compiles direct chains
  and clones of bases. Writing a base in place of the variable that a clone starts from gives
  the devices of the clone.
 */
module QuirkProgram {
  import opened Wrappers
  import opened Sequences
  import opened QuirkChains
  import opened QuirkDevices

  datatype Node =
    | Invocation(func: Node, args: Arguments)
    | Attribute(value: Node, attr: string)
    | Name(id: string)
    | OtherNode

  datatype Statement =
    | Assign(target: string, expr: Node)
    | Expression(expr: Node)
    | OtherStatement

  // ------------------------------------------------------------------ call chains

  /** The calls of a method chain, innermost first. */
  function Chain(node: Node): (r: seq<Node>)
    ensures node.Invocation? <==> r != []
    ensures forall c :: c in r ==> c.Invocation?
    ensures node.Invocation? ==> r[|r| - 1] == node
  {
    if !node.Invocation? then []
    else if node.func.Attribute? then Chain(node.func.value) + [node]
    else [node]
  }

  method UnwrapCallChain(node: Node) returns (chain: seq<Node>)
    ensures chain == Chain(node)
  {
    chain := [];
    var current := node;
    while current.Invocation?
      invariant Chain(node) == Chain(current) + Reverse(chain)
      decreases current
    {
      ReverseSnoc(chain, current);
      assert Chain(current) + Reverse(chain) ==
        (if current.func.Attribute? then Chain(current.func.value) else []) + Reverse(chain + [current]);
      chain := chain + [current];
      if current.func.Attribute? {
        current := current.func.value;
      } else {
        break;
      }
    }
    assert Chain(node) == Reverse(chain);
    chain := ReverseInPlace(chain);
  }

  method ReverseInPlace(nodes: seq<Node>) returns (reversed: seq<Node>)
    ensures reversed == Reverse(nodes)
  {
    reversed := [];
    for i := 0 to |nodes|
      invariant reversed == Reverse(nodes[..i])
    {
      assert nodes[..i + 1] == nodes[..i] + [nodes[i]];
      ReverseSnoc(nodes[..i], nodes[i]);
      reversed := [nodes[i]] + reversed;
    }
    assert nodes[..|nodes|] == nodes;
  }

  /** The name called: a function's name or a method's. */
  function CallName(call: Node): Option<string> {
    if !call.Invocation? then None
    else if call.func.Name? then Some(call.func.id)
    else if call.func.Attribute? then Some(call.func.attr)
    else None
  }

  /** A call as the chain reader sees it; one that is not a method call counts for nothing. */
  function CallOf(node: Node): Call
    requires node.Invocation?
  {
    Call(if node.func.Attribute? then node.func.attr else "", node.args)
  }

  function Calls(nodes: seq<Node>): (r: seq<Call>)
    requires forall c :: c in nodes ==> c.Invocation?
    ensures |r| == |nodes|
    ensures forall i :: 0 <= i < |nodes| ==> r[i] == CallOf(nodes[i])
  {
    seq(|nodes|, i requires 0 <= i < |nodes| => CallOf(nodes[i]))
  }

  // ------------------------------------------------------------------ builders, bases and clones

  predicate IsBuilder(node: Node) {
    && node.Invocation?
    && var name := CallName(Chain(node)[0]);
       name == Some("QuirkBuilder") || name == Some("TuyaQuirkBuilder")
  }

  /** The calls that follow the root of a chain. */
  function Following(node: Node): seq<Call>
    requires node.Invocation?
  {
    Calls(Chain(node))[1..]
  }

  predicate Registers(calls: seq<Call>) {
    exists c :: c in calls && c.name == "add_to_registry"
  }

  /** The model named by a builder's own arguments. */
  function RootModel(root: Node): seq<(string, string)>
    requires root.Invocation?
  {
    var a := root.args;
    var mfr := if a.positional >= 2 then a.manufacturer else None;
    var model := if a.positional >= 2 then a.model else None;
    ModelOf(if mfr.None? then a.manufacturerKeyword else mfr, if model.None? then a.modelKeyword else model)
  }

  predicate IsTuya(node: Node)
    requires node.Invocation?
  {
    CallName(Chain(node)[0]) == Some("TuyaQuirkBuilder")
  }

  predicate IsBase(node: Node) {
    IsBuilder(node) && !Registers(Following(node))
  }

  function BaseData(node: Node): ChainData
    requires node.Invocation?
  {
    var data := Extract(Following(node));
    data.(isTuyaBuilder := IsTuya(node), models := data.models + RootModel(Chain(node)[0]))
  }

  function DirectData(node: Node): ChainData
    requires node.Invocation?
  {
    var data := Extract(Following(node));
    data.(isTuyaBuilder := IsTuya(node), models := RootModel(Chain(node)[0]) + data.models)
  }

  /** The variable a chain of the form `variable.clone()...` starts from. */
  function Cloned(node: Node): Option<string> {
    if !node.Invocation? then None
    else
      var root := Chain(node)[0];
      if root.func.Attribute? && root.func.attr == "clone" && root.func.value.Name? then Some(root.func.value.id) else None
  }

  function CloneData(node: Node, base: ChainData): ChainData
    requires node.Invocation?
  {
    MergeChainData(base, Extract(Following(node)).(isTuyaBuilder := base.isTuyaBuilder))
  }

  // ------------------------------------------------------------------ the two passes

  /** The expression that defines each base: the last one assigned. */
  function Bases(program: seq<Statement>): map<string, Node> {
    if program == [] then map[]
    else
      var s := program[|program| - 1];
      var bases := Bases(program[..|program| - 1]);
      if s.Assign? && IsBase(s.expr) then bases[s.target := s.expr] else bases
  }

  function Compile(tables: Tables, vendor: string, data: ChainData): seq<Device> {
    if !data.isRegistered || data.models == [] then [] else DevicesOf(tables, data, vendor, data.models)
  }

  predicate IsCloneOf(bases: map<string, Node>, node: Node) {
    !IsBuilder(node) && Cloned(node).Some? && Cloned(node).value in bases && bases[Cloned(node).value].Invocation?
  }

  function StatementDevices(tables: Tables, vendor: string, bases: map<string, Node>, s: Statement): seq<Device> {
    if !s.Expression? then []
    else if IsBuilder(s.expr) then Compile(tables, vendor, DirectData(s.expr))
    else if IsCloneOf(bases, s.expr) then
      Compile(tables, vendor, CloneData(s.expr, BaseData(bases[Cloned(s.expr).value])))
    else []
  }

  function AllDevices(tables: Tables, vendor: string, bases: map<string, Node>, program: seq<Statement>): seq<Device> {
    if program == [] then []
    else
      AllDevices(tables, vendor, bases, program[..|program| - 1])
      + StatementDevices(tables, vendor, bases, program[|program| - 1])
  }

  function Devices(tables: Tables, vendor: string, program: seq<Statement>): seq<Device> {
    AllDevices(tables, vendor, Bases(program), program)
  }

  lemma {:induction false} BasesAreBases(program: seq<Statement>)
    ensures forall id :: id in Bases(program) ==> IsBase(Bases(program)[id])
    decreases |program|
  {
    if program != [] {
      hide IsBase;
      BasesAreBases(program[..|program| - 1]);
    }
  }

  ghost predicate Collected(bases: map<string, ChainData>, exprs: map<string, Node>) {
    && bases.Keys == exprs.Keys
    && forall id :: id in bases ==> exprs[id].Invocation? && bases[id] == BaseData(exprs[id])
  }

  method CollectBases(program: seq<Statement>) returns (bases: map<string, ChainData>)
    ensures Collected(bases, Bases(program))
  {
    hide IsBuilder, IsBase, BaseData;
    bases := map[];
    for i := 0 to |program|
      invariant Collected(bases, Bases(program[..i]))
    {
      assert program[..i + 1][..i] == program[..i];
      var s := program[i];
      if s.Assign? {
        var data := ReadBase(s.expr);
        if data.Some? {
          bases := bases[s.target := data.value];
        }
      }
    }
    assert program[..|program|] == program;
  }

  /** The data of a base quirk, if the expression is one: a builder chain that does not register. */
  method ReadBase(expr: Node) returns (data: Option<ChainData>)
    ensures data.Some? <==> IsBase(expr)
    ensures data.Some? ==> expr.Invocation? && data.value == BaseData(expr)
  {
    hide Extract, RootModel;
    if !expr.Invocation? {
      return None;
    }
    var chain := UnwrapCallChain(expr);
    var root := chain[0];
    var name := CallName(root);
    if name != Some("QuirkBuilder") && name != Some("TuyaQuirkBuilder") {
      return None;
    }
    var calls := Calls(chain)[1..];
    for i := 0 to |calls|
      invariant forall k :: 0 <= k < i ==> calls[k].name != "add_to_registry"
    {
      if calls[i].name == "add_to_registry" {
        return None;
      }
    }
    var read := ExtractChainData(calls);
    data := Some(read.(isTuyaBuilder := name == Some("TuyaQuirkBuilder"), models := read.models + RootModel(root)));
  }

  method ExtractV2Quirks(tables: Tables, vendor: string, program: seq<Statement>) returns (devices: seq<Device>)
    ensures devices == Devices(tables, vendor, program)
  {
    hide StatementDevices;
    devices := [];
    var bases := CollectBases(program);
    for i := 0 to |program|
      invariant devices == AllDevices(tables, vendor, Bases(program), program[..i])
    {
      assert program[..i + 1][..i] == program[..i];
      var more := CompileStatement(tables, vendor, bases, Bases(program), program[i]);
      devices := devices + more;
    }
    assert program[..|program|] == program;
  }

  method CompileStatement(tables: Tables, vendor: string, bases: map<string, ChainData>, ghost exprs: map<string, Node>, s: Statement)
    returns (devices: seq<Device>)
    requires Collected(bases, exprs)
    ensures devices == StatementDevices(tables, vendor, exprs, s)
  {
    hide Extract, RootModel, DevicesOf, BaseData;
    devices := [];
    if !s.Expression? || !s.expr.Invocation? {
      return;
    }
    var chain := UnwrapCallChain(s.expr);
    var root := chain[0];
    var name := CallName(root);
    var cloned := None;
    if name == Some("clone") && root.func.Attribute? && root.func.value.Name? {
      cloned := Some(root.func.value.id);
    }
    if name == Some("QuirkBuilder") || name == Some("TuyaQuirkBuilder") {
      var models := RootModel(root);
      var data := ExtractChainData(Calls(chain)[1..]);
      data := data.(isTuyaBuilder := name == Some("TuyaQuirkBuilder"));
      data := data.(models := models + data.models);
      if data.isRegistered && data.models != [] {
        devices := ChainDataToDevices(tables, data, vendor);
      }
    } else if cloned.Some? && cloned.value in bases {
      var base := bases[cloned.value];
      var data := ExtractChainData(Calls(chain)[1..]);
      data := data.(isTuyaBuilder := base.isTuyaBuilder);
      var merged := MergeChainData(base, data);
      if merged.isRegistered && merged.models != [] {
        devices := ChainDataToDevices(tables, merged, vendor);
      }
    }
  }

  // ------------------------------------------------------------------ a clone is its base, inlined

  /** The chain `node` with `base` written in place of what it starts from. */
  function Graft(node: Node, base: Node): Node
    requires node.Invocation?
  {
    if !node.func.Attribute? then node
    else
      var inner := node.func.value;
      Invocation(Attribute(if inner.Invocation? then Graft(inner, base) else base, node.func.attr), node.args)
  }

  lemma CallsSnoc(nodes: seq<Node>, node: Node)
    requires node.Invocation? && forall c :: c in nodes ==> c.Invocation?
    ensures forall c :: c in nodes + [node] ==> c.Invocation?
    ensures Calls(nodes + [node]) == Calls(nodes) + [CallOf(node)]
  {
  }

  function ChainCalls(node: Node): seq<Call> {
    Calls(Chain(node))
  }

  lemma ChainGrows(inner: Node, attr: string, args: Arguments)
    ensures
      var node := Invocation(Attribute(inner, attr), args);
      && ChainCalls(node) == ChainCalls(inner) + [Call(attr, args)]
      && (inner.Invocation? ==> Chain(node)[0] == Chain(inner)[0])
      && (!inner.Invocation? ==> Chain(node) == [node])
  {
    CallsSnoc(Chain(inner), Invocation(Attribute(inner, attr), args));
  }

  /** `grafted` is `node` with the calls of `base` before its own. */
  ghost predicate LaidAfter(grafted: Node, node: Node, base: Node)
    requires base.Invocation?
  {
    && grafted.Invocation? && Chain(grafted)[0] == Chain(base)[0]
    && ChainCalls(grafted) == ChainCalls(base) + ChainCalls(node)
  }

  lemma GraftGrows(grafted: Node, inner: Node, base: Node, attr: string, args: Arguments)
    requires base.Invocation? && LaidAfter(grafted, inner, base)
    ensures LaidAfter(Invocation(Attribute(grafted, attr), args), Invocation(Attribute(inner, attr), args), base)
  {
    ChainGrows(inner, attr, args);
    ChainGrows(grafted, attr, args);
    hide Chain, ChainCalls;
  }

  /** Grafting lays the two chains end to end. */
  lemma {:induction false} GraftedChain(node: Node, base: Node)
    requires node.Invocation? && base.Invocation? && Chain(node)[0].func.Attribute?
    ensures LaidAfter(Graft(node, base), node, base)
    decreases node
  {
    assert !node.func.Attribute? ==> Chain(node) == [node];
    var inner, attr := node.func.value, node.func.attr;
    ChainGrows(inner, attr, node.args);
    if inner.Invocation? {
      hide LaidAfter, ChainCalls;
      GraftedChain(inner, base);
      GraftGrows(Graft(inner, base), inner, base, attr, node.args);
    } else {
      NoCalls(inner);
      assert LaidAfter(base, inner, base);
      GraftGrows(base, inner, base, attr, node.args);
    }
  }

  lemma NoCalls(node: Node)
    requires !node.Invocation?
    ensures ChainCalls(node) == []
  {
  }

  lemma {:induction false} RegisteredExactly(calls: seq<Call>)
    ensures Extract(calls).isRegistered <==> Registers(calls)
    decreases |calls|
  {
    if calls != [] {
      var front, last := calls[..|calls| - 1], calls[|calls| - 1];
      RegisteredExactly(front);
      RegisteringName(last);
      hide Effect;
      assert forall c :: c in calls <==> c in front || c == last;
    }
  }

  lemma RegisteringName(c: Call)
    ensures Effect(c).isRegistered <==> c.name == "add_to_registry"
  {
  }

  lemma CloneCallIsSilent(c: Call)
    requires c.name == "clone"
    ensures Extract([c]) == EMPTY
  {
    assert "tuya_"[0] != "clone"[0];
    assert MethodOf("clone") == Ignored;
    assert [c][..0] == [];
    PlusAssociative(EMPTY, EMPTY, EMPTY);
  }

  /** The calls of a clone written out in full: those of the base, then those of the clone. */
  lemma GraftedReading(b: seq<Call>, c: seq<Call>)
    requires b != [] && c != [] && c[0].name == "clone" && !Registers(b[1..])
    ensures Extract((b + c)[1..]) == Plus(Extract(b[1..]), Extract(c[1..]))
    ensures !Extract(b[1..]).isRegistered
  {
    assert (b + c)[1..] == b[1..] + c;
    assert c == [c[0]] + c[1..];
    CloneCallIsSilent(c[0]);
    hide Extract, Plus, Registers;
    ExtractAppend([c[0]], c[1..]);
    PlusAssociative(Extract(c[1..]), EMPTY, EMPTY);
    ExtractAppend(b[1..], c);
    RegisteredExactly(b[1..]);
  }

  /** What a clone written out in full is read as. */
  lemma GraftedData(clone: Node, base: Node)
    requires IsBase(base) && Cloned(clone).Some?
    ensures IsBuilder(Graft(clone, base))
    ensures
      DirectData(Graft(clone, base)) ==
        CloneData(clone, BaseData(base)).(models := DirectData(base).models + CloneData(clone, BaseData(base)).models)
  {
    hide Chain, Extract, Plus, RootModel, Graft, MergeChainData, Registers, Calls;
    GraftedChain(clone, base);
    var b, c := ChainCalls(base), ChainCalls(clone);
    GraftedReading(b, c);
    SameGraft(Extract(b[1..]), Extract(c[1..]), RootModel(Chain(base)[0]), IsTuya(base));
  }

  lemma SameGraft(b: ChainData, c: ChainData, root: seq<(string, string)>, tuya: bool)
    requires !b.isRegistered
    ensures
      var whole := Plus(b, c);
      var merged := MergeChainData(b.(isTuyaBuilder := tuya, models := b.models + root), c.(isTuyaBuilder := tuya));
      whole.(isTuyaBuilder := tuya, models := root + whole.models) == merged.(models := (root + b.models) + merged.models)
  {
    assert root + (b.models + c.models) == (root + b.models) + c.models;
  }

  /** What the models of the base add when a clone is written out in full. */
  function BaseDevices(tables: Tables, vendor: string, clone: Node, base: Node): seq<Device>
    requires clone.Invocation? && base.Invocation?
  {
    var data := CloneData(clone, BaseData(base));
    if data.isRegistered then DevicesOf(tables, data, vendor, DirectData(base).models) else []
  }

  /** A clone written out in full gives the devices of the base's own models, then those of the clone. */
  lemma CloneIsInlining(tables: Tables, vendor: string, bases: map<string, Node>, clone: Node)
    requires IsCloneOf(bases, clone) && IsBase(bases[Cloned(clone).value])
    ensures
      var base := bases[Cloned(clone).value];
      StatementDevices(tables, vendor, bases, Expression(Graft(clone, base))) ==
        BaseDevices(tables, vendor, clone, base) + StatementDevices(tables, vendor, bases, Expression(clone))
  {
    var base := bases[Cloned(clone).value];
    GraftedData(clone, base);
    hide DevicesOf, Graft, DirectData, CloneData, BaseData, IsBuilder, IsBase;
    var merged, whole := CloneData(clone, BaseData(base)), DirectData(Graft(clone, base));
    var own := DirectData(base).models;
    OnlyBehaviourMatters(tables, merged, whole, vendor, own + merged.models);
    DevicesAppend(tables, merged, vendor, own, merged.models);
    NoDevices(tables, merged, vendor);
    assert own == [] && merged.models == [] <==> whole.models == [];
  }

  lemma NoDevices(tables: Tables, data: ChainData, vendor: string)
    ensures DevicesOf(tables, data, vendor, []) == []
  {
  }

  // ------------------------------------------------------------------ when nothing is added

  /** Neither triggers alone nor any converter or expose: no device is built, whatever the model. */
  predicate BuildsNothing(tables: Tables, data: ChainData) {
    !TriggersOnly(data) && Built(tables, ("", ""), "", InputClusters(data), data.hasEntityMethods).None?
  }

  lemma {:induction false} NoDeviceExactly(tables: Tables, vendor: string, data: ChainData, models: seq<(string, string)>)
    ensures DevicesOf(tables, data, vendor, models) == [] <==> models == [] || BuildsNothing(tables, data)
    decreases |models|
  {
    if models != [] {
      NoDeviceExactly(tables, vendor, data, models[..|models| - 1]);
      hide InputClusters, Ascending, Collect;
      assert DeviceOf(tables, data, vendor, models[|models| - 1]) == [] <==> BuildsNothing(tables, data);
    }
  }

  /** A base adds nothing exactly when the clone does not register, the base names no model or nothing is built. */
  lemma BaseAddsNothingExactly(tables: Tables, vendor: string, clone: Node, base: Node)
    requires clone.Invocation? && base.Invocation?
    ensures
      var data := CloneData(clone, BaseData(base));
      BaseDevices(tables, vendor, clone, base) == [] <==>
        !Registers(Following(clone)) || DirectData(base).models == [] || BuildsNothing(tables, data)
  {
    hide BuildsNothing, DevicesOf;
    var data := CloneData(clone, BaseData(base));
    RegisteredExactly(Following(clone));
    NoDeviceExactly(tables, vendor, data, DirectData(base).models);
  }

  /** A statement with the base of a clone written out. */
  function Inlined(bases: map<string, Node>, s: Statement): Statement {
    if s.Expression? && IsCloneOf(bases, s.expr) then Expression(Graft(s.expr, bases[Cloned(s.expr).value])) else s
  }

  function InlinedAll(bases: map<string, Node>, program: seq<Statement>): (r: seq<Statement>)
    ensures |r| == |program|
    ensures forall i :: 0 <= i < |program| ==> r[i] == Inlined(bases, program[i])
  {
    seq(|program|, i requires 0 <= i < |program| => Inlined(bases, program[i]))
  }

  /** Inlining touches no assignment, so it leaves the bases alone. */
  lemma {:induction false} SameBases(bases: map<string, Node>, program: seq<Statement>)
    ensures Bases(InlinedAll(bases, program)) == Bases(program)
    decreases |program|
  {
    if program != [] {
      hide IsBase, IsCloneOf, Graft;
      var front := program[..|program| - 1];
      SameBases(bases, front);
      assert InlinedAll(bases, program)[..|program| - 1] == InlinedAll(bases, front);
    }
  }

  /** No clone in the program has a base that adds devices of its own. */
  ghost predicate NothingAdded(tables: Tables, vendor: string, bases: map<string, Node>, program: seq<Statement>) {
    forall s :: s in program && s.Expression? && IsCloneOf(bases, s.expr) ==>
      BaseDevices(tables, vendor, s.expr, bases[Cloned(s.expr).value]) == []
  }

  lemma InlinedOne(tables: Tables, vendor: string, bases: map<string, Node>, s: Statement)
    requires forall id :: id in bases ==> IsBase(bases[id])
    ensures
      StatementDevices(tables, vendor, bases, Inlined(bases, s)) ==
        (if s.Expression? && IsCloneOf(bases, s.expr)
         then BaseDevices(tables, vendor, s.expr, bases[Cloned(s.expr).value]) else [])
        + StatementDevices(tables, vendor, bases, s)
  {
    hide StatementDevices, IsBase, Graft, BaseDevices;
    if s.Expression? && IsCloneOf(bases, s.expr) {
      CloneIsInlining(tables, vendor, bases, s.expr);
    }
  }

  lemma {:induction false} InliningAdds(tables: Tables, vendor: string, bases: map<string, Node>, program: seq<Statement>)
    requires forall id :: id in bases ==> IsBase(bases[id])
    ensures
      var inlined := AllDevices(tables, vendor, bases, InlinedAll(bases, program));
      var plain := AllDevices(tables, vendor, bases, program);
      && |inlined| >= |plain|
      && (|inlined| == |plain| <==> NothingAdded(tables, vendor, bases, program))
      && (NothingAdded(tables, vendor, bases, program) ==> inlined == plain)
    decreases |program|
  {
    hide IsBase, IsCloneOf, Graft, StatementDevices, BaseDevices, Inlined;
    if program != [] {
      var front, s := program[..|program| - 1], program[|program| - 1];
      InliningAdds(tables, vendor, bases, front);
      InlinedOne(tables, vendor, bases, s);
      assert InlinedAll(bases, program)[..|program| - 1] == InlinedAll(bases, front);
      assert forall t :: t in program <==> t in front || t == s;
    }
  }

  /** Writing every base out in full keeps the program's devices exactly when no base adds any of its own. */
  lemma InliningKeepsDevicesExactly(tables: Tables, vendor: string, program: seq<Statement>)
    ensures
      Devices(tables, vendor, InlinedAll(Bases(program), program)) == Devices(tables, vendor, program) <==>
        NothingAdded(tables, vendor, Bases(program), program)
  {
    hide AllDevices, NothingAdded, IsBase, InlinedAll;
    BasesAreBases(program);
    SameBases(Bases(program), program);
    InliningAdds(tables, vendor, Bases(program), program);
  }
}
