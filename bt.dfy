/** The behaviour-tree engine: how sequence and fallback nodes combine their
    children's (status, action) results, how a leaf's response is normalised,
    and how the lowered tree form is compiled into a node tree. */
module BT {
  import opened Wrappers
  import opened Utils
  import opened Bank

  /** The (status, action) pair every node returns. */
  datatype Tick = Tick(status: int, action: int)

  /** What a leaf callable returns: a bare status array, or a
      (status, action) tuple. */
  datatype Response = Bare(value: int) | Both(status: int, action: int)

  // ---------------------------------------------------------------------
  // Composition: sequence and fallback

  /** The accumulator a composite node starts from. */
  function Initial(kind: string): Tick {
    Tick(if "seq" <= kind then SUCCESS else FAILURE, -1)
  }

  /** A child "triggers" when a sequence sees a status other than SUCCESS,
      or a fallback sees a status other than FAILURE. */
  predicate Triggers(kind: string, status: int) {
    ("s" <= kind && status != SUCCESS) || ("f" <= kind && status != FAILURE)
  }

  /** For the two kinds the compiler produces, the prefix tests give a
      sequence that starts at SUCCESS and stops on anything else, and a
      fallback that starts at FAILURE and stops on anything else. */
  lemma CompiledKinds()
    ensures Initial("sequence") == Tick(SUCCESS, -1) && Initial("fallback") == Tick(FAILURE, -1)
    ensures forall s :: Triggers("sequence", s) <==> s != SUCCESS
    ensures forall s :: Triggers("fallback", s) <==> s != FAILURE
  {
    assert "sequence"[..3] == "seq" && "sequence"[..1] == "s";
    assert "fallback"[..1] == "f";
    assert "fallback"[0] != 's';
  }

  /** One loop iteration: a triggering child replaces the accumulator while
      the accumulated action is still the -1 sentinel. */
  function Step(kind: string, acc: Tick, child: Tick): Tick {
    if Triggers(kind, child.status) && acc.action == -1 then child else acc
  }

  /** The result of a composite node over its children's results, in order:
      the loop of Step over every child. */
  function Combine(kind: string, rs: seq<Tick>): (r: Tick)
    ensures r == Initial(kind) || exists i :: 0 <= i < |rs| && rs[i] == r && Triggers(kind, rs[i].status)
    decreases |rs|
  {
    if rs == [] then Initial(kind)
    else Step(kind, Combine(kind, rs[..|rs| - 1]), rs[|rs| - 1])
  }

  /** A child that triggers and carries a real action. */
  predicate Decisive(kind: string, t: Tick) {
    Triggers(kind, t.status) && t.action != -1
  }

  /** The position of the first decisive child, if any. */
  function FirstDecisive(kind: string, rs: seq<Tick>): (r: Option<nat>)
    ensures r.Some? ==> r.value < |rs| && Decisive(kind, rs[r.value]) &&
                        forall i :: 0 <= i < r.value ==> !Decisive(kind, rs[i])
    ensures r.None? ==> forall i :: 0 <= i < |rs| ==> !Decisive(kind, rs[i])
  {
    if rs == [] then None
    else if Decisive(kind, rs[0]) then Some(0)
    else match FirstDecisive(kind, rs[1..])
      case None => None
      case Some(j) => Some(j + 1)
  }

  /** The position of the last triggering child, if any. */
  function LastTrigger(kind: string, rs: seq<Tick>): (r: Option<nat>)
    ensures r.Some? ==> r.value < |rs| && Triggers(kind, rs[r.value].status) &&
                        forall i :: r.value < i < |rs| ==> !Triggers(kind, rs[i].status)
    ensures r.None? ==> forall i :: 0 <= i < |rs| ==> !Triggers(kind, rs[i].status)
  {
    if rs == [] then None
    else if Triggers(kind, rs[|rs| - 1].status) then Some(|rs| - 1)
    else LastTrigger(kind, rs[..|rs| - 1])
  }

  /** Reference definition of a composite node's result: the first decisive
      child's pair when there is one; otherwise the status of the last
      triggering child (or the initial status) with action -1. */
  function Reference(kind: string, rs: seq<Tick>): Tick {
    match FirstDecisive(kind, rs)
    case Some(j) => rs[j]
    case None =>
      match LastTrigger(kind, rs)
      case Some(j) => Tick(rs[j].status, -1)
      case None => Initial(kind)
  }

  /** Appending a child: the first decisive position stays, or becomes the
      new child's when there was none. */
  lemma FirstDecisiveSnoc(kind: string, p: seq<Tick>, last: Tick)
    ensures FirstDecisive(kind, p + [last]) ==
      if FirstDecisive(kind, p).Some? then FirstDecisive(kind, p)
      else if Decisive(kind, last) then Some(|p|) else None
  {
    var rs := p + [last];
    assert forall i :: 0 <= i < |p| ==> rs[i] == p[i];
    assert rs[|p|] == last;
  }

  /** Appending a child: the last trigger becomes the new child's when it
      triggers. */
  lemma LastTriggerSnoc(kind: string, p: seq<Tick>, last: Tick)
    ensures LastTrigger(kind, p + [last]) ==
      if Triggers(kind, last.status) then Some(|p|) else LastTrigger(kind, p)
  {
    assert (p + [last])[..|p|] == p;
  }

  /** The loop computes the reference result. */
  lemma {:induction false} CombineIsReference(kind: string, rs: seq<Tick>)
    ensures Combine(kind, rs) == Reference(kind, rs)
    decreases |rs|
  {
    if rs != [] {
      var n := |rs|;
      var p, last := rs[..n - 1], rs[n - 1];
      assert rs == p + [last];
      CombineIsReference(kind, p);
      FirstDecisiveSnoc(kind, p, last);
      LastTriggerSnoc(kind, p, last);
      if FirstDecisive(kind, p).Some? {
        assert rs[FirstDecisive(kind, p).value] == p[FirstDecisive(kind, p).value];
      }
    }
  }

  /** With no children the initial accumulator is returned unchanged:
      (SUCCESS, -1) for a sequence, (FAILURE, -1) for a fallback. */
  lemma EmptyComposite(kind: string)
    ensures Combine(kind, []) == Initial(kind)
    ensures Combine("sequence", []) == Tick(SUCCESS, -1)
    ensures Combine("fallback", []) == Tick(FAILURE, -1)
  {
    CompiledKinds();
  }

  /** A child that does not trigger changes nothing, wherever it stands. */
  lemma {:induction false} NonTriggeringIgnored(kind: string, before: seq<Tick>, t: Tick, after: seq<Tick>)
    requires !Triggers(kind, t.status)
    ensures Combine(kind, before + [t] + after) == Combine(kind, before + after)
    decreases |after|
  {
    if after == [] {
      assert before + [t] + after == before + [t];
      assert (before + [t])[..|before + [t]| - 1] == before;
      assert before + after == before;
    } else {
      var n := |after|;
      var a' := after[..n - 1];
      NonTriggeringIgnored(kind, before, t, a');
      assert (before + [t] + after)[..|before + [t] + after| - 1] == before + [t] + a';
      assert (before + after)[..|before + after| - 1] == before + a';
    }
  }

  /** Once the accumulated action is not -1, later children change neither
      status nor action. */
  lemma {:induction false} DecidedIsFrozen(kind: string, rs: seq<Tick>, more: seq<Tick>)
    requires Combine(kind, rs).action != -1
    ensures Combine(kind, rs + more) == Combine(kind, rs)
    decreases |more|
  {
    if more == [] {
      assert rs + more == rs;
    } else {
      var m' := more[..|more| - 1];
      DecidedIsFrozen(kind, rs, m');
      assert (rs + more)[..|rs + more| - 1] == rs + m';
    }
  }

  /** The sequence/fallback law holds when the first triggering child carries
      a real action: that child's pair is the result. */
  lemma FirstTriggerDecides(kind: string, rs: seq<Tick>, i: nat)
    requires i < |rs| && Triggers(kind, rs[i].status) && rs[i].action != -1
    requires forall j :: 0 <= j < i ==> !Triggers(kind, rs[j].status)
    ensures Combine(kind, rs) == rs[i]
  {
    CombineIsReference(kind, rs);
    assert FirstDecisive(kind, rs) == Some(i);
  }

  /** The law fails when the first triggering child has action -1 (a
      condition): a later triggering child still supplies the result. */
  lemma ConditionDoesNotStopSequence()
    ensures Combine("sequence", [Tick(FAILURE, -1), Tick(RUNNING, 2)]) == Tick(RUNNING, 2)
    ensures Combine("fallback", [Tick(SUCCESS, -1), Tick(SUCCESS, 3)]) == Tick(SUCCESS, 3)
  {
    CompiledKinds();
    var a, b := Tick(FAILURE, -1), Tick(RUNNING, 2);
    assert [a, b][..1] == [a] && [a][..0] == [];
    assert Combine("sequence", [a]) == a;
    var c, d := Tick(SUCCESS, -1), Tick(SUCCESS, 3);
    assert [c, d][..1] == [c] && [c][..0] == [];
    assert Combine("fallback", [c]) == c;
  }

  /** The tick of a sequence or fallback node: every child is called once,
      in order, whatever the earlier children returned. */
  method TreeTick<C>(children: seq<C -> Tick>, kind: string, ctx: C)
    returns (state: int, action: int, ghost ticked: seq<Tick>)
    ensures |ticked| == |children|
    ensures forall i :: 0 <= i < |children| ==> ticked[i] == children[i](ctx)
    ensures Tick(state, action) == Reference(kind, ticked)
  {
    state, action := if "seq" <= kind then SUCCESS else FAILURE, -1;
    ticked := [];
    for i := 0 to |children|
      invariant |ticked| == i
      invariant forall j :: 0 <= j < i ==> ticked[j] == children[j](ctx)
      invariant Tick(state, action) == Combine(kind, ticked)
    {
      var child := children[i](ctx);
      var childState, childAction := child.status, child.action;
      var seqCond := "s" <= kind && childState != SUCCESS;
      var fallCond := "f" <= kind && childState != FAILURE;
      var cond := (seqCond || fallCond) && action == -1;
      ghost var prev := ticked;
      ticked := ticked + [child];
      assert ticked[..|ticked| - 1] == prev;
      if cond {
        state := childState;
      }
      if cond {
        action := childAction;
      }
    }
    CombineIsReference(kind, ticked);
  }

  // ---------------------------------------------------------------------
  // Leaves and decorators

  /** A bare result r becomes (r, -1); a tuple passes through. */
  function Normalize(r: Response): (t: Tick)
    ensures r.Both? ==> Both(t.status, t.action) == r
    ensures r.Bare? ==> t.status == r.value && t.action == -1
  {
    match r
    case Bare(v) => Tick(v, -1)
    case Both(s, a) => Tick(s, a)
  }

  lemma NormalizeCases(v: int, t: Tick)
    ensures Normalize(Bare(v)) == Tick(v, -1)
    ensures Normalize(Both(t.status, t.action)) == t
  {
  }

  /** A registry entry: what the named callable returns when ticked as a
      leaf with the node arguments, and when applied as a decorator to a
      child's unpacked (status, action) pair. */
  datatype Entry<-C> = Entry(leaf: C -> Response, decorate: (int, int) -> Response)

  /** A leaf's tick. */
  function LeafTick<C>(e: Entry<C>, ctx: C): Tick {
    Normalize(e.leaf(ctx))
  }

  /** A decorated node's tick: the decorator applied to the child's pair. */
  function DecoratorTick<C>(e: Entry<C>, child: Tick): (t: Tick) {
    Normalize(e.decorate(child.status, child.action))
  }

  // ---------------------------------------------------------------------
  // Compiled trees

  /** A compiled node: a composite of some kind, a leaf, or a decorator
      around a subtree; leaves and decorators name registry entries. */
  datatype Node =
    | Composite(kind: string, children: seq<Node>)
    | Leaf(name: string)
    | Decorated(decorator: string, child: Node)

  /** Every name in the tree is registered. */
  predicate Resolved(names: set<string>, n: Node) {
    match n
    case Composite(_, cs) => forall i :: 0 <= i < |cs| ==> Resolved(names, cs[i])
    case Leaf(name) => name in names
    case Decorated(d, c) => d in names && Resolved(names, c)
  }

  /** Every composite is a sequence or a fallback. */
  predicate WellKinded(n: Node) {
    match n
    case Composite(kind, cs) =>
      (kind == "sequence" || kind == "fallback") && forall i :: 0 <= i < |cs| ==> WellKinded(cs[i])
    case Leaf(_) => true
    case Decorated(_, c) => WellKinded(c)
  }

  /** The tick of a compiled tree. */
  function Eval<C>(registry: map<string, Entry<C>>, n: Node, ctx: C): (r: Tick)
    requires Resolved(registry.Keys, n)
    ensures n.Composite? ==>
      r == Initial(n.kind) || exists i :: 0 <= i < |n.children| && r == Eval(registry, n.children[i], ctx)
  {
    match n
    case Composite(kind, cs) =>
      Combine(kind, seq(|cs|, i requires 0 <= i < |cs| => Eval(registry, cs[i], ctx)))
    case Leaf(name) => LeafTick(registry[name], ctx)
    case Decorated(d, c) => DecoratorTick(registry[d], Eval(registry, c, ctx))
  }

  /** A leaf's bare status r ticks as (r, -1) and its pair passes through;
      a decorated node ticks as the decorator applied to its child's pair. */
  lemma LeafAndDecoratorTicks<C>(registry: map<string, Entry<C>>, name: string, child: Node, ctx: C)
    requires name in registry && Resolved(registry.Keys, child)
    ensures registry[name].leaf(ctx).Bare? ==> Eval(registry, Leaf(name), ctx) == Tick(registry[name].leaf(ctx).value, -1)
    ensures registry[name].leaf(ctx).Both? ==>
      Eval(registry, Leaf(name), ctx) == Tick(registry[name].leaf(ctx).status, registry[name].leaf(ctx).action)
    ensures var t := Eval(registry, child, ctx);
      Eval(registry, Decorated(name, child), ctx) == Normalize(registry[name].decorate(t.status, t.action))
  {
  }

  // ---------------------------------------------------------------------
  // Compiling the lowered form

  /** Why compilation raises. */
  datatype CompileError =
    | IndexOutOfRange             // indexing past the end of a string, list or tuple
    | InvalidNodeType(tag: Lowered) // a tag that names no node kind
    | UnknownAtomic(name: string)   // a name missing from the registry
    | KeyNotFound                   // a hashable non-string used as a registry key
    | Unhashable                    // a list used as a registry key

  /** `x[i]` on the value x stands for; indexing a string gives a
      one-character string. */
  function Item(x: Lowered, i: nat): Option<Lowered> {
    match x
    case Str(s) => if i < |s| then Some(Str([s[i]])) else None
    case List(items) => if i < |items| then Some(items[i]) else None
    case Pair(k, v) => if i == 0 then Some(Str(k)) else if i == 1 then Some(v) else None
  }

  /** The values `for child in x` visits. */
  function Elements(x: Lowered): seq<Lowered> {
    match x
    case Str(s) => seq(|s|, i requires 0 <= i < |s| => Str([s[i]]))
    case List(items) => items
    case Pair(k, v) => [Str(k), v]
  }

  /** Values that can be dictionary keys. */
  predicate Hashable(x: Lowered) {
    match x
    case Str(_) => true
    case List(_) => false
    case Pair(_, v) => Hashable(v)
  }

  /** Registry lookup by the value x. */
  function Lookup(names: set<string>, x: Lowered): (r: Result<string, CompileError>)
    ensures r.Ok? <==> x.Str? && x.s in names
    ensures r.Ok? ==> r.value == x.s
  {
    match x
    case Str(name) => if name in names then Ok(name) else Err(UnknownAtomic(name))
    case _ => if Hashable(x) then Err(KeyNotFound) else Err(Unhashable)
  }

  /** Nesting depth, the termination measure of compilation. */
  function Height(x: Lowered): nat
    decreases x, 1
  {
    match x
    case Str(_) => 0
    case List(items) => 1 + MaxHeight(items)
    case Pair(_, v) => 1 + Height(v)
  }

  function MaxHeight(xs: seq<Lowered>): (h: nat)
    decreases xs, 0
    ensures forall i :: 0 <= i < |xs| ==> Height(xs[i]) <= h
  {
    if xs == [] then 0
    else var a, b := Height(xs[0]), MaxHeight(xs[1..]); if a < b then b else a
  }

  lemma ItemHeight(x: Lowered, i: nat)
    requires Item(x, i).Some?
    ensures Height(Item(x, i).value) <= Height(x)
    ensures !x.Str? ==> Height(Item(x, i).value) < Height(x)
  {
  }

  lemma ElementsHeight(x: Lowered)
    ensures MaxHeight(Elements(x)) <= Height(x)
    ensures forall i :: 0 <= i < |Elements(x)| ==> Height(Elements(x)[i]) <= Height(x)
  {
    match x
    case Str(s) =>
      var es := Elements(x);
      assert forall i :: 0 <= i < |es| ==> es[i].Str?;
      StrsHaveHeightZero(es);
    case List(items) =>
    case Pair(k, v) =>
      assert Elements(x)[1..] == [v];
      assert Elements(x)[1..][1..] == [];
      assert MaxHeight([v]) == Height(v);
  }

  lemma {:induction false} StrsHaveHeightZero(xs: seq<Lowered>)
    requires forall i :: 0 <= i < |xs| ==> xs[i].Str?
    ensures MaxHeight(xs) == 0
  {
    if xs != [] {
      StrsHaveHeightZero(xs[1..]);
    }
  }

  /** Compiles a lowered node: sequence and fallback children in order,
      condition and action names looked up in the registry, decorators as
      (name, subtree); any other tag raises. */
  function MakeNode(names: set<string>, node: Lowered): (r: Result<Node, CompileError>)
    decreases Height(node), 1, 0
    ensures r.Ok? ==> Resolved(names, r.value) && WellKinded(r.value)
  {
    match node
    case Str(s) => if s == [] then Err(IndexOutOfRange) else Err(InvalidNodeType(Str([s[0]])))
    case _ =>
      var tag := Item(node, 0);
      if tag.None? then Err(IndexOutOfRange)
      else if tag.value == Str("sequence") || tag.value == Str("fallback") then
        match Item(node, 1)
        case None => Err(IndexOutOfRange)
        case Some(cs) =>
          ItemHeight(node, 1);
          ElementsHeight(cs);
          match MakeAll(names, Elements(cs))
          case Err(e) => Err(e)
          case Ok(ns) => Ok(Composite(tag.value.s, ns))
      else if tag.value == Str("condition") || tag.value == Str("action") then
        match Item(node, 1)
        case None => Err(IndexOutOfRange)
        case Some(x) =>
          match Lookup(names, x)
          case Err(e) => Err(e)
          case Ok(name) => Ok(Leaf(name))
      else if tag.value == Str("decorator") then
        match Item(node, 1)
        case None => Err(IndexOutOfRange)
        case Some(d) =>
          match Item(d, 0)
          case None => Err(IndexOutOfRange)
          case Some(dn) =>
            match Lookup(names, dn)
            case Err(e) => Err(e)
            case Ok(dname) =>
              match Item(d, 1)
              case None => Err(IndexOutOfRange)
              case Some(sub) =>
                ItemHeight(node, 1);
                ItemHeight(d, 1);
                match MakeNode(names, sub)
                case Err(e) => Err(e)
                case Ok(n) => Ok(Decorated(dname, n))
      else Err(InvalidNodeType(tag.value))
  }

  /** Compiles a list of children in order; the first failure is the result. */
  function MakeAll(names: set<string>, xs: seq<Lowered>): (r: Result<seq<Node>, CompileError>)
    decreases MaxHeight(xs), 2, |xs|
    ensures r.Ok? <==> forall i :: 0 <= i < |xs| ==> MakeNode(names, xs[i]).Ok?
    ensures r.Ok? ==> |r.value| == |xs| && forall i :: 0 <= i < |xs| ==> r.value[i] == MakeNode(names, xs[i]).value
  {
    if xs == [] then Ok([])
    else
      match MakeNode(names, xs[0])
      case Err(e) => Err(e)
      case Ok(n) =>
        match MakeAll(names, xs[1..])
        case Err(e) => Err(e)
        case Ok(ns) => Ok([n] + ns)
  }

  /** Sequence and fallback children are compiled one by one and kept in
      their declared order. */
  lemma CompositeChildrenInOrder(names: set<string>, kind: string, items: seq<Lowered>)
    requires kind == "sequence" || kind == "fallback"
    ensures MakeNode(names, Pair(kind, List(items))).Ok? <==>
            forall i :: 0 <= i < |items| ==> MakeNode(names, items[i]).Ok?
    ensures MakeNode(names, Pair(kind, List(items))).Ok? ==>
            var n := MakeNode(names, Pair(kind, List(items))).value;
            n.Composite? && n.kind == kind && |n.children| == |items| &&
            forall i :: 0 <= i < |items| ==> n.children[i] == MakeNode(names, items[i]).value
  {
  }

  /** A condition or action whose name is not registered fails the lookup,
      and a tag naming no node kind raises. */
  lemma CompileErrors(names: set<string>, kind: string, name: string, v: Lowered)
    ensures kind in {"condition", "action"} && name !in names ==>
            MakeNode(names, Pair(kind, Str(name))) == Err(UnknownAtomic(name))
    ensures kind in {"condition", "action"} && name in names ==>
            MakeNode(names, Pair(kind, Str(name))) == Ok(Leaf(name))
    ensures kind !in {"sequence", "fallback", "condition", "action", "decorator"} ==>
            MakeNode(names, Pair(kind, v)) == Err(InvalidNodeType(Str(kind)))
  {
  }

  /** The lowered form a compiled node comes from. */
  function Unlower(n: Node): Lowered {
    match n
    case Composite(kind, cs) => Pair(kind, List(seq(|cs|, i requires 0 <= i < |cs| => Unlower(cs[i]))))
    case Leaf(name) => Pair("action", Str(name))
    case Decorated(d, c) => Pair("decorator", List([Str(d), Unlower(c)]))
  }

  /** Compiling the lowered form of a well-kinded, resolved tree gives the
      tree back. */
  lemma {:induction false} CompileRoundTrip(names: set<string>, n: Node)
    requires Resolved(names, n) && WellKinded(n)
    ensures MakeNode(names, Unlower(n)) == Ok(n)
    decreases n, 1
  {
    match n
    case Composite(kind, cs) =>
      var us := seq(|cs|, i requires 0 <= i < |cs| => Unlower(cs[i]));
      CompileAllRoundTrip(names, cs);
      assert MakeAll(names, us) == Ok(cs);
    case Leaf(name) =>
    case Decorated(d, c) =>
      CompileRoundTrip(names, c);
  }

  lemma {:induction false} CompileAllRoundTrip(names: set<string>, cs: seq<Node>)
    requires forall i :: 0 <= i < |cs| ==> Resolved(names, cs[i]) && WellKinded(cs[i])
    ensures MakeAll(names, seq(|cs|, i requires 0 <= i < |cs| => Unlower(cs[i]))) == Ok(cs)
    decreases cs, 0
  {
    var us := seq(|cs|, i requires 0 <= i < |cs| => Unlower(cs[i]));
    forall i | 0 <= i < |cs|
      ensures MakeNode(names, us[i]) == Ok(cs[i])
    {
      CompileRoundTrip(names, cs[i]);
    }
    assert MakeAll(names, us).Ok?;
    assert MakeAll(names, us).value == cs;
  }

  // ---------------------------------------------------------------------
  // From parse tree to compiled tree

  /** Names and kinds the lowering leaves unchanged. */
  predicate LowerCaseNames(n: Node) {
    match n
    case Composite(kind, cs) => IsLowerCase(kind) && forall i :: 0 <= i < |cs| ==> LowerCaseNames(cs[i])
    case Leaf(name) => IsLowerCase(name)
    case Decorated(d, c) => IsLowerCase(d) && LowerCaseNames(c)
  }

  /** The parse tree of an atomic's name. */
  function NameTree(name: string): ParseTree {
    Rule("atomic", [Rule("string", [Token(name)])])
  }

  /** A parse tree that the lowering reads as the node n: a node rule
      around a sequence/fallback rule over a nodes rule, around an action
      rule, or around a decorator rule holding a name and a subtree. */
  function Syntax(n: Node): ParseTree {
    match n
    case Composite(kind, cs) =>
      Rule("node", [Rule(kind, [Rule("nodes", seq(|cs|, i requires 0 <= i < |cs| => Syntax(cs[i])))])])
    case Leaf(name) => Rule("node", [Rule("action", [NameTree(name)])])
    case Decorated(d, c) => Rule("node", [Rule("decorator", [NameTree(d), Syntax(c)])])
  }

  lemma NameTreeLowering(name: string)
    requires IsLowerCase(name)
    ensures DictFn(NameTree(name)) == Ok(Str(name))
  {
    RuleNamesAreLowerCase();
    LowerOfLowerCase(name);
    assert DictFn(Rule("string", [Token(name)])) == Ok(Str(name));
  }

  lemma CompositeSyntaxLowering(kind: string, ps: seq<ParseTree>, us: seq<Lowered>)
    requires kind == "sequence" || kind == "fallback"
    requires DictAll(ps) == Ok(us)
    ensures DictFn(Rule("node", [Rule(kind, [Rule("nodes", ps)])])) == Ok(Pair(kind, List(us)))
  {
    RuleNamesAreLowerCase();
    assert DictFn(Rule("nodes", ps)) == Ok(List(us));
    var xs := [Rule("nodes", ps)];
    assert DictFn(xs[0]) == Ok(List(us));
    assert DictAll(xs).Ok? && |DictAll(xs).value| == 1 && DictAll(xs).value[0] == List(us);
    assert DictAll(xs).value == [List(us)];
    assert DictFn(Rule(kind, [Rule("nodes", ps)])) == Ok(Pair(kind, List(us)));
  }

  lemma LeafSyntaxLowering(name: string)
    requires IsLowerCase(name)
    ensures DictFn(Rule("node", [Rule("action", [NameTree(name)])])) == Ok(Pair("action", Str(name)))
  {
    RuleNamesAreLowerCase();
    NameTreeLowering(name);
    assert DictFn(Rule("action", [NameTree(name)])) == Ok(Pair("action", Str(name)));
  }

  lemma DecoratedSyntaxLowering(d: string, pc: ParseTree, uc: Lowered)
    requires IsLowerCase(d)
    requires DictFn(pc) == Ok(uc)
    ensures DictFn(Rule("node", [Rule("decorator", [NameTree(d), pc])])) ==
            Ok(Pair("decorator", List([Str(d), uc])))
  {
    RuleNamesAreLowerCase();
    NameTreeLowering(d);
    var xs := [NameTree(d), pc];
    assert DictFn(xs[0]) == Ok(Str(d)) && DictFn(xs[1]) == Ok(uc);
    assert DictAll(xs).Ok? && |DictAll(xs).value| == 2;
    assert DictAll(xs).value[0] == Str(d) && DictAll(xs).value[1] == uc;
    assert DictAll(xs).value == [Str(d), uc];
    assert DictFn(Rule("decorator", [NameTree(d), pc])) == Ok(Pair("decorator", List([Str(d), uc])));
  }

  /** Lowering the parse tree of n gives the lowered form n compiles from. */
  lemma {:induction false} LoweringOfSyntax(n: Node)
    requires WellKinded(n) && LowerCaseNames(n)
    ensures DictFn(Syntax(n)) == Ok(Unlower(n))
    decreases n, 1
  {
    match n
    case Composite(kind, cs) =>
      LoweringOfSyntaxAll(cs);
      CompositeSyntaxLowering(kind, seq(|cs|, i requires 0 <= i < |cs| => Syntax(cs[i])),
                              seq(|cs|, i requires 0 <= i < |cs| => Unlower(cs[i])));
    case Leaf(name) =>
      LeafSyntaxLowering(name);
    case Decorated(d, c) =>
      LoweringOfSyntax(c);
      DecoratedSyntaxLowering(d, Syntax(c), Unlower(c));
  }

  lemma {:induction false} LoweringOfSyntaxAll(cs: seq<Node>)
    requires forall i :: 0 <= i < |cs| ==> WellKinded(cs[i]) && LowerCaseNames(cs[i])
    ensures DictAll(seq(|cs|, i requires 0 <= i < |cs| => Syntax(cs[i]))) ==
            Ok(seq(|cs|, i requires 0 <= i < |cs| => Unlower(cs[i])))
    decreases cs, 0
  {
    var ps := seq(|cs|, i requires 0 <= i < |cs| => Syntax(cs[i]));
    forall i | 0 <= i < |cs|
      ensures DictFn(ps[i]) == Ok(Unlower(cs[i]))
    {
      LoweringOfSyntax(cs[i]);
    }
    assert DictAll(ps).Ok?;
    assert DictAll(ps).value == seq(|cs|, i requires 0 <= i < |cs| => Unlower(cs[i]));
  }

  /** The whole pipeline: lowering the parse tree of a resolved, well-kinded
      tree and compiling the result gives the tree back. */
  lemma ParseTreeCompiles(names: set<string>, n: Node)
    requires Resolved(names, n) && WellKinded(n) && LowerCaseNames(n)
    ensures DictFn(Syntax(n)).Ok?
    ensures MakeNode(names, DictFn(Syntax(n)).value) == Ok(n)
  {
    LoweringOfSyntax(n);
    CompileRoundTrip(names, n);
  }
}
