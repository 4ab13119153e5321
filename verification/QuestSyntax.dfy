/**
 The language of quests as a set of syntax trees, every choice an author has included: how a tree is spelt, what it
 means, and which trees are well formed. Nothing here refers to the parser.
 */
module QuestSyntax {
  import opened QuestParser
  import opened QuestTokens

  // ---------- trees ----------

  /** An expression as written. A missing one is allowed where no identifier follows. */
  datatype Phrase =
    | Nothing
    | Goto(target: string)
    | Call(callee: string, scopes: seq<Scope>, args: seq<Token>)

  datatype Choice = IfWord | ElseIfWord | ElifWord

  /** What may stand in a state block, in any order; `Semicolon` anywhere and any number of times. */
  datatype Entry =
    | Semicolon
    | Desc(text: string)
    | RuleLine(goal: bool, expr: Phrase, act: Phrase)
    | ActionLine(otherwise: bool, act: Phrase)
    | ChoiceLine(choice: Choice, expr: Phrase, act: Phrase)

  datatype Minor = NoMinor | Minor(n: int)

  /** What may stand in a main block, in any order. */
  datatype MainEntry =
    | NameLine(name: string)
    | VersionLine(major: int, minor: Minor)
    | HiddenLine(atEnd: bool)
    | DisabledLine

  datatype TopBlock = MainBlock(lines: seq<MainEntry>) | StateBlock(name: string, entries: seq<Entry>)

  // ---------- spelling ----------

  const END := Token(EndOfFile, NoData, 0)

  function Word(s: string): Token { Token(Identifier, Text(s), 0) }
  function Quoted(s: string): Token { Token(String, Text(s), 0) }
  function Numeral(n: int): Token { Token(Integer, Number(n), 0) }
  function Sym(s: string): Token { Token(Symbol, Text(s), 0) }
  function Oper(n: int): Token { Token(Operator, Number(n), 0) }

  /** The arguments and the closing parenthesis. */
  function RenderArgs(args: seq<Token>): Tokens {
    if args == [] then [Oper(CLOSE)]
    else if |args| == 1 then [args[0], Oper(CLOSE)]
    else [args[0], Sym(",")] + RenderArgs(args[1..])
  }

  function ScopeName(s: Scope): string {
    match s
    case Character => "character"
    case NPC => "npc"
    case Map => "map"
    case World => "world"
  }

  /** Every scope with a dot behind it. */
  function RenderScopes(scopes: seq<Scope>): Tokens {
    if scopes == [] then [] else [Word(ScopeName(scopes[0])), Sym(".")] + RenderScopes(scopes[1..])
  }

  /** The scopes come behind the function name, where the parser looks for them. */
  function RenderPhrase(p: Phrase): Tokens {
    match p
    case Nothing => []
    case Goto(target) => [Word("goto"), Word(target)]
    case Call(f, scopes, args) => [Word(f)] + (RenderScopes(scopes) + ([Oper(OPEN)] + RenderArgs(args)))
  }

  function ChoiceText(c: Choice): string {
    match c
    case IfWord => "if"
    case ElseIfWord => "elseif"
    case ElifWord => "elif"
  }

  function RenderEntry(e: Entry): Tokens {
    match e
    case Semicolon => [Sym(";")]
    case Desc(text) => [Word("desc"), Quoted(text)]
    case RuleLine(goal, expr, act) =>
      [Word(if goal then "goal" else "rule")] + (RenderPhrase(expr) + RenderPhrase(act))
    case ActionLine(otherwise, act) => [Word(if otherwise then "else" else "action")] + RenderPhrase(act)
    case ChoiceLine(choice, expr, act) => [Word(ChoiceText(choice))] + (RenderPhrase(expr) + RenderPhrase(act))
  }

  function RenderEntries(es: seq<Entry>): Tokens {
    if es == [] then [] else RenderEntry(es[0]) + RenderEntries(es[1..])
  }

  function RenderMinor(minor: Minor): Tokens {
    if minor.NoMinor? then [] else [Sym("."), Numeral(minor.n)]
  }

  function RenderMainEntry(e: MainEntry): Tokens {
    match e
    case NameLine(name) => [Word("questname"), Quoted(name)]
    case VersionLine(major, minor) => [Word("version"), Numeral(major)] + RenderMinor(minor)
    case HiddenLine(atEnd) => [Word(if atEnd then "hidden_end" else "hidden")]
    case DisabledLine => [Word("disabled")]
  }

  function RenderMain(es: seq<MainEntry>): Tokens {
    if es == [] then [] else RenderMainEntry(es[0]) + RenderMain(es[1..])
  }

  function RenderTop(b: TopBlock): Tokens {
    match b
    case MainBlock(lines) => [Word("main"), Sym("{")] + (RenderMain(lines) + [Sym("}")])
    case StateBlock(name, entries) => [Word("state"), Word(name), Sym("{")] + (RenderEntries(entries) + [Sym("}")])
  }

  function RenderTops(bs: seq<TopBlock>): Tokens {
    if bs == [] then [] else RenderTop(bs[0]) + RenderTops(bs[1..])
  }

  // ---------- well-formed trees ----------

  predicate ArgumentToken(t: Token) {
    t.kind in ARGUMENT && t.newlines == 0
  }

  predicate PhraseFits(p: Phrase) {
    p.Call? ==> p.callee != "goto" && forall t :: t in p.args ==> ArgumentToken(t)
  }

  /** Something can only be missing at the end of an entry. */
  predicate EntryFits(e: Entry) {
    match e
    case Semicolon => true
    case Desc(_) => true
    case ActionLine(_, act) => PhraseFits(act)
    case RuleLine(_, expr, act) => PhraseFits(expr) && PhraseFits(act) && (expr.Nothing? ==> act.Nothing?)
    case ChoiceLine(_, expr, act) => PhraseFits(expr) && PhraseFits(act) && (expr.Nothing? ==> act.Nothing?)
  }

  predicate OpenEnded(e: Entry) {
    !e.Semicolon? && !e.Desc? && e.act.Nothing?
  }

  /** Behind a missing expression only a semicolon or the end of the block keeps the next word apart. */
  predicate EntriesFit(es: seq<Entry>) {
    && (forall i :: 0 <= i < |es| ==> EntryFits(es[i]))
    && (forall i :: 0 <= i < |es| - 1 && OpenEnded(es[i]) ==> es[i + 1].Semicolon?)
  }

  predicate TopFits(b: TopBlock) {
    b.StateBlock? ==> EntriesFit(b.entries)
  }

  // ---------- meaning ----------

  function DataOf(args: seq<Token>): (r: seq<Data>)
    ensures |r| == |args|
  {
    if args == [] then [] else [args[0].data] + DataOf(args[1..])
  }

  function ExpressionOf(p: Phrase): Expression {
    match p
    case Nothing => Expression([], "", [])
    case Goto(target) => Expression([], "setstate", [Text(target)])
    case Call(f, scopes, args) => Expression(scopes, f, DataOf(args))
  }

  /** The rules of a state, goals included, in the order they are written. */
  function RulesOf(es: seq<Entry>): seq<Rule> {
    if es == [] then []
    else
      var e := es[|es| - 1];
      RulesOf(es[..|es| - 1])
      + (if e.RuleLine? then [Rule(ExpressionOf(e.expr), Action(Always, NOTHING, ExpressionOf(e.act)))] else [])
  }

  function ActionsOf(es: seq<Entry>): seq<Action> {
    if es == [] then []
    else
      var e := es[|es| - 1];
      ActionsOf(es[..|es| - 1])
      + (if e.ActionLine? then [Action(if e.otherwise then Else else Always, NOTHING, ExpressionOf(e.act))]
         else if e.ChoiceLine? then
           [Action(if e.choice.IfWord? then If else ElseIf, ExpressionOf(e.expr), ExpressionOf(e.act))]
         else [])
  }

  function DescsOf(es: seq<Entry>): seq<string> {
    if es == [] then []
    else DescsOf(es[..|es| - 1]) + (if es[|es| - 1].Desc? then [es[|es| - 1].text] else [])
  }

  /** The number of the last rule that is a goal; without any it is 0. */
  function GoalOf(es: seq<Entry>): nat {
    if es == [] then 0
    else
      var before := es[..|es| - 1];
      var e := es[|es| - 1];
      if e.RuleLine? && e.goal then |RulesOf(before)| else GoalOf(before)
  }

  function Only<T>(s: seq<T>, none: T): T {
    if s == [] then none else s[0]
  }

  function StateOf(name: string, es: seq<Entry>): State {
    State(name, Only(DescsOf(es), ""), RulesOf(es), ActionsOf(es), GoalOf(es))
  }

  function VersionOf(e: MainEntry): nat
    requires e.VersionLine?
  {
    e.major % 65536 * 65536 + (if e.minor.NoMinor? then 0 else e.minor.n % 65536)
  }

  function NamesOf(es: seq<MainEntry>): seq<string> {
    if es == [] then []
    else NamesOf(es[..|es| - 1]) + (if es[|es| - 1].NameLine? then [es[|es| - 1].name] else [])
  }

  function VersionsOf(es: seq<MainEntry>): seq<nat> {
    if es == [] then []
    else VersionsOf(es[..|es| - 1]) + (if es[|es| - 1].VersionLine? then [VersionOf(es[|es| - 1])] else [])
  }

  function HiddensOf(es: seq<MainEntry>): seq<Hidden> {
    if es == [] then []
    else
      HiddensOf(es[..|es| - 1])
      + (if es[|es| - 1].HiddenLine? then [if es[|es| - 1].atEnd then HiddenEnd else IsHidden] else [])
  }

  function DisabledsOf(es: seq<MainEntry>): nat {
    if es == [] then 0 else DisabledsOf(es[..|es| - 1]) + (if es[|es| - 1].DisabledLine? then 1 else 0)
  }

  function InfoOf(es: seq<MainEntry>): Info {
    Info(Only(NamesOf(es), ""), Only(VersionsOf(es), 0), Only(HiddensOf(es), NotHidden), DisabledsOf(es) > 0)
  }

  /** Every attribute of a main block at most once. */
  predicate Once(es: seq<MainEntry>) {
    |NamesOf(es)| <= 1 && |VersionsOf(es)| <= 1 && |HiddensOf(es)| <= 1 && DisabledsOf(es) <= 1
  }

  function MainsOf(bs: seq<TopBlock>): seq<Info> {
    if bs == [] then []
    else MainsOf(bs[..|bs| - 1]) + (if bs[|bs| - 1].MainBlock? then [InfoOf(bs[|bs| - 1].lines)] else [])
  }

  function StatesOf(bs: seq<TopBlock>): seq<State> {
    if bs == [] then []
    else
      var b := bs[|bs| - 1];
      StatesOf(bs[..|bs| - 1]) + (if b.StateBlock? then [StateOf(b.name, b.entries)] else [])
  }

  /** Every block says nothing twice. */
  predicate TopSound(b: TopBlock) {
    match b
    case MainBlock(lines) => Once(lines)
    case StateBlock(_, entries) => |DescsOf(entries)| <= 1
  }

  predicate Distinct(ss: seq<State>) {
    forall i, j :: 0 <= i < j < |ss| ==> ss[i].name != ss[j].name
  }

  /** A quest: exactly one main block, anywhere, and states of different names. */
  predicate QuestSound(bs: seq<TopBlock>) {
    && (forall i :: 0 <= i < |bs| ==> TopSound(bs[i]))
    && |MainsOf(bs)| == 1
    && Distinct(StatesOf(bs))
  }

  /** The main block and exactly these states under their names. */
  predicate IsQuest(q: Quest, bs: seq<TopBlock>)
    requires |MainsOf(bs)| == 1
  {
    && q.hasInfo && q.info == MainsOf(bs)[0]
    && q.states.Keys == (set k | 0 <= k < |StatesOf(bs)| :: StatesOf(bs)[k].name)
    && (forall k :: 0 <= k < |StatesOf(bs)| ==> q.states[StatesOf(bs)[k].name] == StatesOf(bs)[k])
  }

  /** The tokens of a list of blocks, with the end of the file behind them. */
  predicate Spells(bs: seq<TopBlock>, ts: Tokens, tail: Tokens) {
    (forall i :: 0 <= i < |bs| ==> TopFits(bs[i])) && ts == RenderTops(bs) + ([END] + tail)
  }
}
