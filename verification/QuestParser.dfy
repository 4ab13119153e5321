/** The quest parser of src/eoplus/parse.cpp, on the tokens that are not newlines. */
module QuestParser {
  import opened QuestTokens

  const OPEN := 8    // UOP1('(')
  const CLOSE := 9   // UOP1(')')

  // ---------- quests ----------

  datatype Scope = Character | NPC | Map | World

  datatype Expression = Expression(scopes: seq<Scope>, callee: string, args: seq<Data>)

  const NOTHING := Expression([], "", [])

  datatype Condition = Always | If | Else | ElseIf

  datatype Action = Action(cond: Condition, condExpr: Expression, expr: Expression)

  datatype Rule = Rule(expr: Expression, action: Action)

  datatype Hidden = NotHidden | IsHidden | HiddenEnd

  datatype Info = Info(name: string, version: nat, hidden: Hidden, disabled: bool)

  datatype State = State(name: string, desc: string, rules: seq<Rule>, actions: seq<Action>, goal: nat)

  datatype Quest = Quest(hasInfo: bool, info: Info, states: map<string, State>)

  const NO_INFO := Info("", 0, NotHidden, false)

  datatype Error =
    | ExpectedVersion | ExpectedMinor | ExpectedDot | ExpectedGotoTarget | ExpectedArgument | ExpectedComma
    | ExpectedOpen | ExpectedQuestName | ExpectedDesc | ExpectedEntry | ExpectedMainEntry | ExpectedStateName
    | ExpectedBrace | ExpectedMainBrace | ExpectedBlock | TwoNames | TwoVersions | TwoHidden | TwoDisabled
    | TwoDescs | TwoMains | TwoStates | NoMain

  datatype Result<+T> = Ok(value: T) | Err(error: Error)

  // ---------- the grammar, on visible tokens ----------

  type Tokens = seq<Token>

  function AsText(t: Token): string {
    if t.data.Text? then t.data.s else ""
  }

  /** Text counts as 0; this is only asked of ',' and of operators. */
  function AsInt(t: Token): int {
    if t.data.Number? then t.data.n else 0
  }

  /** A token of one of the kinds that also satisfies `f`; otherwise nothing is taken. */
  function GotIf(ts: Tokens, allow: set<Kind>, f: Token -> bool): (r: (Token, Tokens))
    ensures |r.1| <= |ts|
  {
    var (t, rest) := Got(ts, allow);
    if t.kind != Invalid && !f(t) then (NONE, [t] + rest) else (t, rest)
  }

  function IsSymbol(s: string): Token -> bool {
    (t: Token) => AsText(t) == s
  }

  function IsOperator(n: int): Token -> bool {
    (t: Token) => AsInt(t) == n
  }

  function IsCommaOrClose(): Token -> bool {
    (t: Token) => (t.kind == Symbol && AsText(t) == ",") || (t.kind == Operator && AsInt(t) == CLOSE)
  }

  function ScopeOf(s: string): (r: seq<Scope>) {
    if s == "character" then [Character]
    else if s == "npc" then [NPC]
    else if s == "map" then [Map]
    else if s == "world" then [World]
    else []
  }

  function ParsedScopes(ts: Tokens, scopes: seq<Scope>): (r: Result<(seq<Scope>, Tokens)>)
    ensures r.Ok? ==> |r.value.1| <= |ts|
    decreases |ts|
  {
    var (t, rest) := Got(ts, {Identifier});
    if t.kind == Invalid then Ok((scopes, rest))
    else if ScopeOf(AsText(t)) == [] then Ok((scopes, [t] + rest))
    else
      var (dot, after) := GotIf(rest, {Symbol}, IsSymbol("."));
      if dot.kind == Invalid then Err(ExpectedDot)
      else ParsedScopes(after, scopes + ScopeOf(AsText(t)))
  }

  const ARGUMENT: set<Kind> := {String, Float, Integer}

  function ParsedArgs(ts: Tokens, args: seq<Data>): (r: Result<(seq<Data>, Tokens)>)
    ensures r.Ok? ==> |r.value.1| < |ts|
    decreases |ts|
  {
    var (t, rest) := Got(ts, ARGUMENT);
    if t.kind == Invalid then Err(ExpectedArgument)
    else
      var (sep, after) := GotIf(rest, {Symbol, Operator}, IsCommaOrClose());
      if sep.kind == Invalid then Err(ExpectedComma)
      else if AsInt(sep) == CLOSE then Ok((args + [t.data], after))
      else ParsedArgs(after, args + [t.data])
  }

  /** The parenthesised rest of a call. */
  function ParsedCall(ts: Tokens, scopes: seq<Scope>, f: string): (r: Result<(Expression, Tokens)>)
    ensures r.Ok? ==> |r.value.1| <= |ts|
  {
    var (open, ts1) := GotIf(ts, {Operator}, IsOperator(OPEN));
    if open.kind == Invalid then Err(ExpectedOpen)
    else
      var (close, ts2) := GotIf(ts1, {Operator}, IsOperator(CLOSE));
      if close.kind != Invalid then Ok((Expression(scopes, f, []), ts2))
      else
        match ParsedArgs(ts2, [])
        case Err(e) => Err(e)
        case Ok((args, ts3)) => Ok((Expression(scopes, f, args), ts3))
  }

  /** An expression; without an identifier it is empty. The function name comes before any scopes. */
  function ParsedExpression(ts: Tokens): (r: Result<(Expression, Tokens)>)
    ensures r.Ok? ==> |r.value.1| <= |ts|
  {
    var (t, rest) := Got(ts, {Identifier});
    if t.kind == Invalid then Ok((NOTHING, rest))
    else if AsText(t) == "goto" then
      var (tt, after) := Got(rest, {Identifier});
      if tt.kind == Invalid then Err(ExpectedGotoTarget)
      else Ok((Expression([], "setstate", [Text(AsText(tt))]), after))
    else
      match ParsedScopes(rest, [])
      case Err(e) => Err(e)
      case Ok((scopes, ts1)) => ParsedCall(ts1, scopes, AsText(t))
  }

  function ParsedAction(ts: Tokens): (r: Result<(Action, Tokens)>)
    ensures r.Ok? ==> |r.value.1| <= |ts|
  {
    match ParsedExpression(ts)
    case Err(e) => Err(e)
    case Ok((expr, rest)) => Ok((Action(Always, NOTHING, expr), rest))
  }

  function ParsedRule(ts: Tokens): (r: Result<(Rule, Tokens)>)
    ensures r.Ok? ==> |r.value.1| <= |ts|
  {
    match ParsedExpression(ts)
    case Err(e) => Err(e)
    case Ok((expr, ts1)) =>
      match ParsedAction(ts1)
      case Err(e) => Err(e)
      case Ok((action, ts2)) => Ok((Rule(expr, action), ts2))
  }

  function ParsedText(ts: Tokens, e: Error): (r: Result<(string, Tokens)>)
    ensures r.Ok? ==> |r.value.1| <= |ts|
  {
    var (t, rest) := Got(ts, {String});
    if t.kind == Invalid then Err(e) else Ok((AsText(t), rest))
  }

  /** The part of a version after the first number. */
  function ParsedMinor(ts: Tokens): (r: Result<(nat, Tokens)>)
    ensures r.Ok? ==> |r.value.1| <= |ts| && r.value.0 < 65536
  {
    var (dot, ts1) := GotIf(ts, {Symbol}, IsSymbol("."));
    if dot.kind == Invalid then Ok((0, ts1))
    else
      var (minor, ts2) := Got(ts1, {Integer});
      if minor.kind == Invalid then Err(ExpectedMinor) else Ok((AsInt(minor) % 65536, ts2))
  }

  function ParsedVersion(ts: Tokens): (r: Result<(nat, Tokens)>)
    ensures r.Ok? ==> |r.value.1| <= |ts|
  {
    var (major, rest) := Got(ts, {Integer});
    if major.kind == Invalid then Err(ExpectedVersion)
    else
      match ParsedMinor(rest)
      case Err(e) => Err(e)
      case Ok((minor, after)) => Ok((AsInt(major) % 65536 * 65536 + minor, after))
  }

  /** What a state block has collected so far. */
  datatype Block = Block(rules: seq<Rule>, actions: seq<Action>, desc: string, hasDesc: bool, goal: nat)

  const NO_BLOCK := Block([], [], "", false, 0)

  const ENTRY: set<Kind> := {Identifier, Symbol}

  /** One entry of a state block whose keyword has been taken. */
  function ParsedEntry(word: string, ts: Tokens, b: Block): (r: Result<(Block, Tokens)>)
    ensures r.Ok? ==> |r.value.1| <= |ts|
  {
    if word == "action" || word == "else" then
      match ParsedAction(ts)
      case Err(e) => Err(e)
      case Ok((a, rest)) =>
        Ok((b.(actions := b.actions + [if word == "else" then a.(cond := Else) else a]), rest))
    else if word == "rule" || word == "goal" || word == "if" || word == "elseif" || word == "elif" then
      match ParsedRule(ts)
      case Err(e) => Err(e)
      case Ok((rule, rest)) =>
        if word == "rule" then Ok((b.(rules := b.rules + [rule]), rest))
        else if word == "goal" then Ok((b.(rules := b.rules + [rule], goal := |b.rules|), rest))
        else
          var cond := if word == "if" then If else ElseIf;
          Ok((b.(actions := b.actions + [Action(cond, rule.expr, rule.action.expr)]), rest))
    else if word == "desc" then
      if b.hasDesc then Err(TwoDescs)
      else
        match ParsedText(ts, ExpectedDesc)
        case Err(e) => Err(e)
        case Ok((d, rest)) => Ok((b.(desc := d, hasDesc := true), rest))
    else Err(ExpectedEntry)
  }

  function ParsedBlock(ts: Tokens, b: Block): (r: Result<(Block, Tokens)>)
    ensures r.Ok? ==> |r.value.1| < |ts|
    decreases |ts|
  {
    var (t, rest) := Got(ts, ENTRY);
    if t.kind == Invalid then Err(ExpectedEntry)
    else if t.kind == Identifier then
      match ParsedEntry(AsText(t), rest, b)
      case Err(e) => Err(e)
      case Ok((b', after)) => ParsedBlock(after, b')
    else if AsText(t) == "}" then Ok((b, rest))
    else if AsText(t) == ";" then ParsedBlock(rest, b)
    else Err(ExpectedEntry)
  }

  /** What a main block has collected so far. */
  datatype Main = Main(info: Info, hasName: bool, hasVersion: bool)

  const NO_MAIN := Main(NO_INFO, false, false)

  function ParsedMainEntry(word: string, ts: Tokens, m: Main): (r: Result<(Main, Tokens)>)
    ensures r.Ok? ==> |r.value.1| <= |ts|
  {
    if word == "questname" then
      if m.hasName then Err(TwoNames)
      else
        match ParsedText(ts, ExpectedQuestName)
        case Err(e) => Err(e)
        case Ok((n, rest)) => Ok((m.(info := m.info.(name := n), hasName := true), rest))
    else if word == "version" then
      if m.hasVersion then Err(TwoVersions)
      else
        match ParsedVersion(ts)
        case Err(e) => Err(e)
        case Ok((v, rest)) => Ok((m.(info := m.info.(version := v), hasVersion := true), rest))
    else if word == "hidden" || word == "hidden_end" then
      if m.info.hidden != NotHidden then Err(TwoHidden)
      else Ok((m.(info := m.info.(hidden := if word == "hidden" then IsHidden else HiddenEnd)), ts))
    else if word == "disabled" then
      if m.info.disabled then Err(TwoDisabled) else Ok((m.(info := m.info.(disabled := true)), ts))
    else Err(ExpectedMainEntry)
  }

  function ParsedMain(ts: Tokens, m: Main): (r: Result<(Info, Tokens)>)
    ensures r.Ok? ==> |r.value.1| < |ts|
    decreases |ts|
  {
    var (t, rest) := Got(ts, ENTRY);
    if t.kind == Invalid then Err(ExpectedMainEntry)
    else if t.kind == Identifier then
      match ParsedMainEntry(AsText(t), rest, m)
      case Err(e) => Err(e)
      case Ok((m', after)) => ParsedMain(after, m')
    else if AsText(t) == "}" then Ok((m.info, rest))
    else Err(ExpectedMainEntry)
  }

  function ParsedMainBlock(ts: Tokens): (r: Result<(Info, Tokens)>)
    ensures r.Ok? ==> |r.value.1| <= |ts|
  {
    var (t, rest) := Got(ts, {Symbol});
    if t.kind != Invalid && AsText(t) == "{" then ParsedMain(rest, NO_MAIN) else Err(ExpectedMainBrace)
  }

  function ParsedState(ts: Tokens): (r: Result<(State, Tokens)>)
    ensures r.Ok? ==> |r.value.1| <= |ts|
  {
    var (name, ts1) := Got(ts, {Identifier});
    if name.kind == Invalid then Err(ExpectedStateName)
    else
      var (brace, ts2) := Got(ts1, {Symbol});
      if brace.kind == Invalid || AsText(brace) != "{" then Err(ExpectedBrace)
      else
        match ParsedBlock(ts2, NO_BLOCK)
        case Err(e) => Err(e)
        case Ok((b, ts3)) => Ok((State(AsText(name), b.desc, b.rules, b.actions, b.goal), ts3))
  }

  const TOP: set<Kind> := {Identifier, EndOfFile}

  /** One main or state block whose keyword has been taken. */
  function ParsedTop(word: string, ts: Tokens, q: Quest): (r: Result<(Quest, Tokens)>)
    ensures r.Ok? ==> |r.value.1| <= |ts|
  {
    if word == "main" then
      if q.hasInfo then Err(TwoMains)
      else
        match ParsedMainBlock(ts)
        case Err(e) => Err(e)
        case Ok((info, after)) => Ok((q.(info := info, hasInfo := true), after))
    else if word == "state" then
      match ParsedState(ts)
      case Err(e) => Err(e)
      case Ok((s, after)) =>
        if s.name in q.states then Err(TwoStates) else Ok((q.(states := q.states[s.name := s]), after))
    else Err(ExpectedBlock)
  }

  function ParsedQuest(ts: Tokens, q: Quest): (r: Result<Quest>)
    decreases |ts|
  {
    var (t, rest) := Got(ts, TOP);
    if t.kind == Invalid then Err(ExpectedBlock)
    else if t.kind == EndOfFile then if q.hasInfo then Ok(q) else Err(NoMain)
    else
      match ParsedTop(AsText(t), rest, q)
      case Err(e) => Err(e)
      case Ok((q', after)) => ParsedQuest(after, q')
  }

  const NO_QUEST := Quest(false, NO_INFO, map[])
}
