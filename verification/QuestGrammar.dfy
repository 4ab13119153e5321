/**
 The language the parser accepts is exactly the one of the syntax trees: whatever it accepts is spelt by a
 well-formed tree and means what that tree means, and every quest there can be has such a text.
 */
module QuestGrammar {
  import opened Bytes
  import opened QuestParser
  import opened QuestRoundTrip
  import opened QuestSyntax
  import opened QuestTokens

  /** A token as the lexer makes it and the parser sees it. */
  predicate LexedToken(t: Token) {
    && t.newlines == 0
    && match t.kind
       case Identifier => t.data.Text?
       case String => t.data.Text?
       case Symbol => t.data.Text?
       case Integer => t.data.Number?
       case Operator => t.data.Number?
       case EndOfFile => t.data.NoData?
       case Float => true
       case Boolean => true
       case NewLine => false
       case Invalid => false
  }

  predicate Lexed(ts: Tokens) {
    forall i :: 0 <= i < |ts| ==> LexedToken(ts[i])
  }

  // ---------- single tokens ----------

  /** A token that was taken is the first. */
  lemma First1(ts: Tokens, allow: set<Kind>)
    requires Lexed(ts)
    ensures
      var (t, rest) := Got(ts, allow);
      if t.kind == Invalid then rest == ts && (ts == [] || ts[0].kind !in allow)
      else ts == [t] + rest && t.kind in allow && LexedToken(t) && Lexed(rest)
  {
    if ts != [] {
      assert LexedToken(ts[0]);
      assert Plain(ts[0]) == ts[0];
      assert ts == [ts[0]] + ts[1..];
    }
  }

  lemma FirstIf(ts: Tokens, allow: set<Kind>, f: Token -> bool)
    requires Lexed(ts)
    ensures
      var (t, rest) := GotIf(ts, allow, f);
      if t.kind == Invalid then rest == ts
      else ts == [t] + rest && t.kind in allow && f(t) && LexedToken(t) && Lexed(rest)
  {
    First1(ts, allow);
  }

  // ---------- expressions ----------

  lemma ScopeNames(s: string)
    requires ScopeOf(s) != []
    ensures ScopeOf(s) == [ScopeOf(s)[0]] && ScopeName(ScopeOf(s)[0]) == s
  {
  }

  lemma {:induction false} ScopesTree(ts: Tokens, before: seq<Scope>) returns (scopes: seq<Scope>)
    requires Lexed(ts) && ParsedScopes(ts, before).Ok?
    ensures
      var (all, rest) := ParsedScopes(ts, before).value;
      all == before + scopes && ts == RenderScopes(scopes) + rest && Lexed(rest)
    decreases |ts|
  {
    hide ScopeOf, ScopeName, RenderScopes;
    var (t, rest) := Got(ts, {Identifier});
    First1(ts, {Identifier});
    if t.kind == Invalid || ScopeOf(AsText(t)) == [] {
      scopes := [];
      NoScopes(ts);
    } else {
      var (dot, after) := GotIf(rest, {Symbol}, IsSymbol("."));
      FirstIf(rest, {Symbol}, IsSymbol("."));
      ScopeNames(AsText(t));
      var scope := ScopeOf(AsText(t))[0];
      var more := ScopesTree(after, before + [scope]);
      scopes := [scope] + more;
      assert dot == Sym(".");
      assert before + [scope] + more == before + scopes;
      ScopesJoin(scope, more, ParsedScopes(ts, before).value.1);
    }
  }

  lemma NoScopes(ts: Tokens)
    ensures RenderScopes([]) + ts == ts
  {
  }

  lemma ScopesJoin(scope: Scope, more: seq<Scope>, rest: Tokens)
    ensures RenderScopes([scope] + more) + rest
      == [Word(ScopeName(scope))] + ([Sym(".")] + (RenderScopes(more) + rest))
  {
    hide ScopeName;
    assert ([scope] + more)[1..] == more;
    TwoFirst(Word(ScopeName(scope)), Sym("."), RenderScopes(more), rest);
  }

  lemma {:induction false} ArgsTree(ts: Tokens, before: seq<Data>) returns (args: seq<Token>)
    requires Lexed(ts) && ParsedArgs(ts, before).Ok?
    ensures args != [] && (forall t :: t in args ==> ArgumentToken(t))
    ensures
      var (_, rest) := ParsedArgs(ts, before).value;
      ts == RenderArgs(args) + rest && Lexed(rest)
    decreases |ts|
  {
    var (t, rest) := Got(ts, ARGUMENT);
    First1(ts, ARGUMENT);
    var (sep, after) := GotIf(rest, {Symbol, Operator}, IsCommaOrClose());
    FirstIf(rest, {Symbol, Operator}, IsCommaOrClose());
    if AsInt(sep) == CLOSE {
      args := [t];
      assert sep == Oper(CLOSE);
      assert RenderArgs(args) + after == [t] + ([Oper(CLOSE)] + after);
    } else {
      assert sep == Sym(",");
      var more := ArgsTree(after, before + [t.data]);
      args := [t] + more;
      ArgsJoin(t, more, ParsedArgs(ts, before).value.1);
    }
  }

  lemma ArgsJoin(t: Token, more: seq<Token>, rest: Tokens)
    requires more != []
    ensures RenderArgs([t] + more) + rest == [t] + ([Sym(",")] + (RenderArgs(more) + rest))
  {
    assert ([t] + more)[1..] == more;
    TwoFirst(t, Sym(","), RenderArgs(more), rest);
  }

  lemma CallTree(ts: Tokens, scopes: seq<Scope>, f: string) returns (args: seq<Token>)
    requires Lexed(ts) && ParsedCall(ts, scopes, f).Ok?
    ensures forall t :: t in args ==> ArgumentToken(t)
    ensures
      var (_, rest) := ParsedCall(ts, scopes, f).value;
      ts == [Oper(OPEN)] + (RenderArgs(args) + rest) && Lexed(rest)
  {
    hide ParsedArgs;
    var (open, ts1) := GotIf(ts, {Operator}, IsOperator(OPEN));
    FirstIf(ts, {Operator}, IsOperator(OPEN));
    var (close, ts2) := GotIf(ts1, {Operator}, IsOperator(CLOSE));
    FirstIf(ts1, {Operator}, IsOperator(CLOSE));
    if close.kind != Invalid {
      args := [];
      assert RenderArgs(args) == [Oper(CLOSE)];
    } else {
      args := ArgsTree(ts2, []);
    }
  }

  /** Whatever is read as an expression is spelt by one; a missing one has no identifier behind it. */
  lemma PhraseTree(ts: Tokens) returns (p: Phrase)
    requires Lexed(ts) && ParsedExpression(ts).Ok?
    ensures
      var (_, rest) := ParsedExpression(ts).value;
      && PhraseFits(p) && ts == RenderPhrase(p) + rest && Lexed(rest)
      && (p.Nothing? ==> rest == [] || rest[0].kind != Identifier)
  {
    hide ParsedScopes, ParsedCall, RenderArgs, RenderScopes;
    var (t, rest) := Got(ts, {Identifier});
    First1(ts, {Identifier});
    if t.kind == Invalid {
      p := Nothing;
      ConcatEmpty(ts);
    } else if AsText(t) == "goto" {
      var (tt, after) := Got(rest, {Identifier});
      First1(rest, {Identifier});
      p := Goto(AsText(tt));
    } else {
      var scopes := ScopesTree(rest, []);
      var (all, ts1) := ParsedScopes(rest, []).value;
      assert all == scopes;
      var args := CallTree(ts1, all, AsText(t));
      p := Call(AsText(t), scopes, args);
      CallShape(p, ParsedExpression(ts).value.1);
    }
  }

  // ---------- state blocks ----------

  /** The two expressions of a rule. */
  lemma RuleTree(ts: Tokens) returns (expr: Phrase, act: Phrase)
    requires Lexed(ts) && ParsedRule(ts).Ok?
    ensures
      var (_, rest) := ParsedRule(ts).value;
      && PhraseFits(expr) && PhraseFits(act) && (expr.Nothing? ==> act.Nothing?)
      && ts == (RenderPhrase(expr) + RenderPhrase(act)) + rest && Lexed(rest)
      && (act.Nothing? ==> rest == [] || rest[0].kind != Identifier)
  {
    expr := PhraseTree(ts);
    var ts1 := ParsedExpression(ts).value.1;
    act := PhraseTree(ts1);
    var rest := ParsedRule(ts).value.1;
    StartsWithWord(act, rest);
    hide ParsedExpression, RenderPhrase, PhraseFits;
    ConcatAssociative(RenderPhrase(expr), RenderPhrase(act), rest);
  }

  lemma StartsWithWord(p: Phrase, rest: Tokens)
    ensures !p.Nothing? ==> RenderPhrase(p) + rest != [] && (RenderPhrase(p) + rest)[0].kind == Identifier
  {
  }

  lemma EntryTree(word: string, ts: Tokens, b: Block) returns (e: Entry)
    requires Lexed(ts) && ParsedEntry(word, ts, b).Ok?
    ensures
      var (_, rest) := ParsedEntry(word, ts, b).value;
      && EntryFits(e) && !e.Semicolon? && [Word(word)] + ts == RenderEntry(e) + rest && Lexed(rest)
      && (OpenEnded(e) ==> rest == [] || rest[0].kind != Identifier)
  {
    hide ParsedExpression, ParsedRule, RenderPhrase, PhraseFits;
    var rest := ParsedEntry(word, ts, b).value.1;
    if word == "action" || word == "else" {
      var act := PhraseTree(ts);
      e := ActionLine(word == "else", act);
      ConcatAssociative([Word(word)], RenderPhrase(act), rest);
    } else if word == "desc" {
      First1(ts, {String});
      e := Desc(AsText(Got(ts, {String}).0));
      assert ts == [Quoted(e.text)] + rest;
    } else {
      var expr, act := RuleTree(ts);
      var choice := if word == "if" then IfWord else if word == "elseif" then ElseIfWord else ElifWord;
      e := if word == "rule" || word == "goal" then RuleLine(word == "goal", expr, act)
           else ChoiceLine(choice, expr, act);
      ConcatAssociative([Word(word)], RenderPhrase(expr) + RenderPhrase(act), rest);
    }
  }

  lemma EntriesJoin(e: Entry, more: seq<Entry>, close: Tokens)
    requires EntryFits(e) && EntriesFit(more)
    requires OpenEnded(e) && more != [] ==> (RenderEntries(more) + close)[0].kind != Identifier
    ensures EntriesFit([e] + more)
    ensures RenderEntries([e] + more) + close == RenderEntry(e) + (RenderEntries(more) + close)
  {
    var all := [e] + more;
    assert all[1..] == more;
    ConcatAssociative(RenderEntry(e), RenderEntries(more), close);
    forall i | 0 <= i < |all| ensures EntryFits(all[i]) {
      assert i > 0 ==> all[i] == more[i - 1];
    }
    forall i | 0 <= i < |all| - 1 && OpenEnded(all[i]) ensures all[i + 1].Semicolon? {
      assert all[i + 1] == more[i];
      if i == 0 {
        EntryStarts(more[0]);
        assert (RenderEntries(more) + close)[0] == RenderEntry(more[0])[0];
      } else {
        assert all[i] == more[i - 1];
      }
    }
  }

  lemma EntryStarts(e: Entry)
    ensures RenderEntry(e) != []
    ensures e.Semicolon? || RenderEntry(e)[0].kind == Identifier
  {
  }

  lemma {:induction false} BlockTree(ts: Tokens, b: Block) returns (es: seq<Entry>)
    requires Lexed(ts) && ParsedBlock(ts, b).Ok?
    ensures
      var (_, rest) := ParsedBlock(ts, b).value;
      EntriesFit(es) && ts == RenderEntries(es) + ([Sym("}")] + rest) && Lexed(rest)
    decreases |ts|
  {
    hide ParsedEntry, RenderEntry, EntryFits, OpenEnded;
    var end := ParsedBlock(ts, b).value.1;
    var close := [Sym("}")] + end;
    var (t, rest) := Got(ts, ENTRY);
    First1(ts, ENTRY);
    if t.kind == Identifier {
      var e := EntryTree(AsText(t), rest, b);
      var (b', after) := ParsedEntry(AsText(t), rest, b).value;
      var more := BlockTree(after, b');
      es := [e] + more;
      EntriesJoin(e, more, close);
    } else if AsText(t) == "}" {
      es := [];
      ConcatEmpty(close);
    } else {
      var more := BlockTree(rest, b);
      es := [Semicolon] + more;
      SemicolonFits();
      EntriesJoin(Semicolon, more, close);
    }
  }

  lemma SemicolonFits()
    ensures EntryFits(Semicolon) && !OpenEnded(Semicolon) && RenderEntry(Semicolon) == [Sym(";")]
  {
  }

  // ---------- the main block ----------

  lemma TwoMore<T>(a: T, b: T, rest: seq<T>)
    ensures [a, b] + rest == [a] + ([b] + rest)
  {
  }

  lemma TextTree(ts: Tokens, e: Error) returns (s: string)
    requires Lexed(ts) && ParsedText(ts, e).Ok?
    ensures ts == [Quoted(s)] + ParsedText(ts, e).value.1 && Lexed(ParsedText(ts, e).value.1)
  {
    First1(ts, {String});
    s := ParsedText(ts, e).value.0;
  }

  lemma MainEntryTree(word: string, ts: Tokens, m: Main) returns (e: MainEntry)
    requires Lexed(ts) && ParsedMainEntry(word, ts, m).Ok?
    ensures
      var (_, rest) := ParsedMainEntry(word, ts, m).value;
      [Word(word)] + ts == RenderMainEntry(e) + rest && Lexed(rest)
  {
    hide ParsedText, ParsedVersion, RenderMinor, Lexed;
    var rest := ParsedMainEntry(word, ts, m).value.1;
    if word == "questname" {
      var name := TextTree(ts, ExpectedQuestName);
      e := NameLine(name);
      TwoMore(Word(word), Quoted(name), rest);
    } else if word == "version" {
      e := VersionTree(ts);
      TwoFirst(Word(word), Numeral(e.major), RenderMinor(e.minor), rest);
    } else if word == "disabled" {
      e := DisabledLine;
    } else {
      e := HiddenLine(word == "hidden_end");
    }
  }

  lemma MinorTree(ts: Tokens) returns (minor: Minor)
    requires Lexed(ts) && ParsedMinor(ts).Ok?
    ensures
      var (_, rest) := ParsedMinor(ts).value;
      ts == RenderMinor(minor) + rest && Lexed(rest)
  {
    var (dot, ts1) := GotIf(ts, {Symbol}, IsSymbol("."));
    FirstIf(ts, {Symbol}, IsSymbol("."));
    if dot.kind == Invalid {
      minor := NoMinor;
      ConcatEmpty(ts);
    } else {
      First1(ts1, {Integer});
      minor := Minor(AsInt(Got(ts1, {Integer}).0));
      TwoMore(Sym("."), Numeral(minor.n), ParsedMinor(ts).value.1);
    }
  }

  lemma VersionTree(ts: Tokens) returns (e: MainEntry)
    requires Lexed(ts) && ParsedVersion(ts).Ok?
    ensures
      var (_, rest) := ParsedVersion(ts).value;
      e.VersionLine? && ts == [Numeral(e.major)] + (RenderMinor(e.minor) + rest) && Lexed(rest)
  {
    hide ParsedMinor, RenderMinor;
    var (major, rest) := Got(ts, {Integer});
    First1(ts, {Integer});
    var minor := MinorTree(rest);
    e := VersionLine(AsInt(major), minor);
  }

  lemma {:induction false} MainTree(ts: Tokens, m: Main) returns (es: seq<MainEntry>)
    requires Lexed(ts) && ParsedMain(ts, m).Ok?
    ensures
      var (_, rest) := ParsedMain(ts, m).value;
      ts == RenderMain(es) + ([Sym("}")] + rest) && Lexed(rest)
    decreases |ts|
  {
    hide ParsedMainEntry, RenderMainEntry;
    var close := [Sym("}")] + ParsedMain(ts, m).value.1;
    var (t, rest) := Got(ts, ENTRY);
    First1(ts, ENTRY);
    if t.kind == Identifier {
      var e := MainEntryTree(AsText(t), rest, m);
      var (m', after) := ParsedMainEntry(AsText(t), rest, m).value;
      var more := MainTree(after, m');
      es := [e] + more;
      assert es[1..] == more;
      ConcatAssociative(RenderMainEntry(e), RenderMain(more), close);
    } else {
      es := [];
      ConcatEmpty(close);
    }
  }

  // ---------- quests ----------

  lemma TopTree(word: string, ts: Tokens, q: Quest) returns (b: TopBlock)
    requires Lexed(ts) && ParsedTop(word, ts, q).Ok?
    ensures
      var (_, rest) := ParsedTop(word, ts, q).value;
      TopFits(b) && [Word(word)] + ts == RenderTop(b) + rest && Lexed(rest)
  {
    hide ParsedMain, ParsedBlock, EntriesFit, RenderEntries, RenderMain;
    var rest := ParsedTop(word, ts, q).value.1;
    if word == "main" {
      First1(ts, {Symbol});
      var lines := MainTree(Got(ts, {Symbol}).1, NO_MAIN);
      b := MainBlock(lines);
      InfoShape(lines, rest);
    } else {
      var (name, ts1) := Got(ts, {Identifier});
      First1(ts, {Identifier});
      First1(ts1, {Symbol});
      var entries := BlockTree(Got(ts1, {Symbol}).1, NO_BLOCK);
      b := StateBlock(AsText(name), entries);
      StateShape(b.name, entries, rest);
    }
  }

  lemma {:induction false} QuestTree(ts: Tokens, q: Quest) returns (bs: seq<TopBlock>, tail: Tokens)
    requires Lexed(ts) && ParsedQuest(ts, q).Ok?
    ensures Spells(bs, ts, tail)
    decreases |ts|
  {
    hide ParsedTop, RenderTop, TopFits;
    var (t, rest) := Got(ts, TOP);
    First1(ts, TOP);
    if t.kind == EndOfFile {
      bs, tail := [], rest;
      ConcatEmpty(ts);
    } else {
      var b := TopTree(AsText(t), rest, q);
      var (q', after) := ParsedTop(AsText(t), rest, q).value;
      var more;
      more, tail := QuestTree(after, q');
      bs := [b] + more;
      assert bs[1..] == more;
      forall i | 0 <= i < |bs| ensures TopFits(bs[i]) {
        assert i > 0 ==> bs[i] == more[i - 1];
      }
      ConcatAssociative(RenderTop(b), RenderTops(more), [END] + tail);
    }
  }

  /** The tokens spell blocks that make up a quest. */
  ghost predicate QuestText(ts: Tokens) {
    exists bs, tail :: Spells(bs, ts, tail) && QuestSound(bs)
  }

  /** The parser accepts exactly the texts of sound quests, and what it makes of one is what the text means. */
  lemma AcceptedIff(ts: Tokens)
    requires Lexed(ts)
    ensures ParsedQuest(ts, NO_QUEST).Ok? <==> QuestText(ts)
    ensures forall bs, tail :: Spells(bs, ts, tail) && QuestSound(bs) ==> IsQuest(ParsedQuest(ts, NO_QUEST).value, bs)
  {
    hide ParsedQuest, Spells, Fault, MainsOf, StatesOf;
    if ParsedQuest(ts, NO_QUEST).Ok? {
      var bs, tail := QuestTree(ts, NO_QUEST);
      QuestRoundTrip.QuestRoundTrip(bs, ts, tail);
    }
    forall bs, tail | Spells(bs, ts, tail) && QuestSound(bs)
      ensures ParsedQuest(ts, NO_QUEST).Ok? && IsQuest(ParsedQuest(ts, NO_QUEST).value, bs)
    {
      QuestRoundTrip.QuestRoundTrip(bs, ts, tail);
    }
  }
}
