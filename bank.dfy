/** Lowering of a rule-tagged parse tree into the nested tuple/list form that
    the tree compiler consumes. */
module Bank {
  import opened Wrappers

  /** A parse tree as the parser produces it: a rule node (the rule's name
      and its children) or a token (its text). */
  datatype ParseTree = Rule(data: string, children: seq<ParseTree>) | Token(text: string)

  /** The lowered form: a string, a list, or a (key, value) tuple. */
  datatype Lowered = Str(s: string) | List(items: seq<Lowered>) | Pair(key: string, value: Lowered)

  /** The ways the lowering raises. */
  datatype LowerError =
    | NotARule     // a token reached where a rule node is read (a token has no rule name)
    | NotAToken    // a rule node reached where a token's text is lowercased
    | MissingChild // the first child of a rule node with no children

  /** ASCII lower-casing of one character. */
  function LowerChar(c: char): (r: char)
    ensures 'A' <= c <= 'Z' ==> 'a' <= r <= 'z' && r as int == c as int + 32
    ensures !('A' <= c <= 'Z') ==> r == c
  {
    if 'A' <= c <= 'Z' then (c as int + 32) as char else c
  }

  /** ASCII lower-casing of a string, character by character. */
  function Lower(s: string): (r: string)
    ensures |r| == |s|
    ensures forall i :: 0 <= i < |s| ==> r[i] == LowerChar(s[i])
  {
    seq(|s|, i requires 0 <= i < |s| => LowerChar(s[i]))
  }

  /** A string that lower-casing leaves unchanged. */
  predicate IsLowerCase(s: string) {
    forall i :: 0 <= i < |s| ==> !('A' <= s[i] <= 'Z')
  }

  lemma {:induction false} LowerOfLowerCase(s: string)
    requires IsLowerCase(s)
    ensures Lower(s) == s
  {
    assert forall i :: 0 <= i < |s| ==> Lower(s)[i] == s[i];
  }

  /** The rule names the lowering tests are unchanged by lower-casing. */
  lemma RuleNamesAreLowerCase()
    ensures Lower("node") == "node" && Lower("nodes") == "nodes" && Lower("atomic") == "atomic"
    ensures Lower("string") == "string" && Lower("action") == "action"
    ensures Lower("decorator") == "decorator"
    ensures Lower("sequence") == "sequence" && Lower("fallback") == "fallback"
  {
    LowerOfLowerCase("node");
    LowerOfLowerCase("nodes");
    LowerOfLowerCase("atomic");
    LowerOfLowerCase("string");
    LowerOfLowerCase("action");
    LowerOfLowerCase("decorator");
    LowerOfLowerCase("sequence");
    LowerOfLowerCase("fallback");
  }

  /** Rule names whose node becomes its first child's text, lowercased. */
  predicate IsTextRule(key: string) {
    key == "string" || key == "direction" || key == "foe" || key == "friend"
  }

  /** Every text and every key in a lowered value is lower-case. */
  predicate AllLowerCase(v: Lowered) {
    match v
    case Str(s) => IsLowerCase(s)
    case List(items) => forall i :: 0 <= i < |items| ==> AllLowerCase(items[i])
    case Pair(key, value) => IsLowerCase(key) && AllLowerCase(value)
  }

  /** Lowering yields lower-case strings. */
  lemma LowerIsLowerCase(s: string)
    ensures IsLowerCase(Lower(s))
  {
  }

  /** Lowers a parse tree. Rule names are compared case-insensitively, as
      the source compares title-cased names. */
  function DictFn(t: ParseTree): (r: Result<Lowered, LowerError>)
    decreases t, 1
    ensures t.Token? ==> r == Err(NotARule)
    ensures r.Ok? ==> AllLowerCase(r.value)
  {
    match t
    case Token(_) => Err(NotARule)
    case Rule(data, cs) =>
      var key := Lower(data);
      if IsTextRule(key) then
        if cs == [] then Err(MissingChild)
        else match cs[0]
          case Token(text) => LowerIsLowerCase(text); Ok(Str(Lower(text)))
          case Rule(_, _) => Err(NotAToken)
      else if key == "node" || key == "atomic" then
        if cs == [] then Err(MissingChild) else DictFn(cs[0])
      else if key == "nodes" then
        match DictAll(cs)
        case Err(e) => Err(e)
        case Ok(vs) => Ok(List(vs))
      else if key == "action" || key == "condition" then
        if cs == [] then Err(MissingChild)
        else match DictFn(cs[0])
          case Err(e) => Err(e)
          case Ok(v) => LowerIsLowerCase(data); Ok(Pair(key, v))
      else
        match DictAll(cs)
        case Err(e) => Err(e)
        case Ok(vs) =>
          LowerIsLowerCase(data);
          if |vs| > 1 then Ok(Pair(key, List(vs)))
          else if vs == [] then Err(MissingChild)
          else Ok(Pair(key, vs[0]))
  }

  /** Lowers a list of children in order; the first failing child's error
      is the result. */
  function DictAll(cs: seq<ParseTree>): (r: Result<seq<Lowered>, LowerError>)
    decreases cs, 0
    ensures r.Ok? <==> forall i :: 0 <= i < |cs| ==> DictFn(cs[i]).Ok?
    ensures r.Ok? ==> |r.value| == |cs| && forall i :: 0 <= i < |cs| ==> r.value[i] == DictFn(cs[i]).value
    ensures r.Err? ==> exists i :: 0 <= i < |cs| && DictFn(cs[i]) == Err(r.error) &&
                                   forall j :: 0 <= j < i ==> DictFn(cs[j]).Ok?
  {
    if cs == [] then Ok([])
    else match DictFn(cs[0])
      case Err(e) => Err(e)
      case Ok(v) =>
        match DictAll(cs[1..])
        case Err(e) => Err(e)
        case Ok(vs) => Ok([v] + vs)
  }

  /** String, Direction, Foe and Friend nodes become their first child's
      text, lowercased. */
  lemma TextRuleLowering(data: string, text: string, rest: seq<ParseTree>)
    requires IsTextRule(Lower(data))
    ensures DictFn(Rule(data, [Token(text)] + rest)) == Ok(Str(Lower(text)))
    ensures DictFn(Rule(data, [])) == Err(MissingChild)
  {
  }

  /** Node and Atomic nodes are replaced by their first child's lowering; an
      Atomic's further children (its arguments) are dropped. */
  lemma UnwrapLowering(data: string, first: ParseTree, rest: seq<ParseTree>)
    requires Lower(data) == "node" || Lower(data) == "atomic"
    ensures DictFn(Rule(data, [first] + rest)) == DictFn(first)
  {
  }

  /** A Nodes node becomes the list of its children's lowerings, of the same
      length and in the same order. */
  lemma NodesLowering(data: string, cs: seq<ParseTree>)
    requires Lower(data) == "nodes"
    ensures DictFn(Rule(data, cs)).Ok? <==> forall i :: 0 <= i < |cs| ==> DictFn(cs[i]).Ok?
    ensures DictFn(Rule(data, cs)).Ok? ==>
      DictFn(Rule(data, cs)).value.List? &&
      |DictFn(Rule(data, cs)).value.items| == |cs| &&
      forall i :: 0 <= i < |cs| ==> DictFn(Rule(data, cs)).value.items[i] == DictFn(cs[i]).value
  {
  }

  /** Action and Condition nodes become the pair of their lowercased rule
      name and their first child's lowering. */
  lemma LeafLowering(data: string, first: ParseTree, rest: seq<ParseTree>)
    requires Lower(data) == "action" || Lower(data) == "condition"
    ensures DictFn(first).Ok? ==> DictFn(Rule(data, [first] + rest)) == Ok(Pair(Lower(data), DictFn(first).value))
    ensures DictFn(first).Err? ==> DictFn(Rule(data, [first] + rest)) == DictFn(first)
  {
  }

  /** Every other rule becomes the pair of its lowercased name and the list
      of its children's lowerings, collapsed to the single element when there
      is exactly one child; with no children the lowering fails. */
  lemma OtherRuleLowering(data: string, cs: seq<ParseTree>)
    requires var key := Lower(data);
      !IsTextRule(key) && key != "node" && key != "atomic" && key != "nodes" &&
      key != "action" && key != "condition"
    requires forall i :: 0 <= i < |cs| ==> DictFn(cs[i]).Ok?
    ensures |cs| == 0 ==> DictFn(Rule(data, cs)) == Err(MissingChild)
    ensures |cs| == 1 ==> DictFn(Rule(data, cs)) == Ok(Pair(Lower(data), DictFn(cs[0]).value))
    ensures |cs| > 1 ==> DictFn(Rule(data, cs)) == Ok(Pair(Lower(data), List(DictAll(cs).value)))
  {
  }
}
