/** The token server of src/eoplus/parse.cpp: put-back, newline skipping and line counting. */
module QuestTokens {

  datatype Kind =
    | Invalid | Identifier | String | Integer | Float | Boolean | Operator | Symbol | NewLine | EndOfFile

  datatype Data = NoData | Text(s: string) | Number(n: int)

  /** `newlines` is how many newline tokens were skipped in front of the token. */
  datatype Token = Token(kind: Kind, data: Data, newlines: int)

  const NONE := Token(Invalid, NoData, 0)

  /** The token without its newline count. */
  function Plain(t: Token): Token {
    t.(newlines := 0)
  }

  /** What a parser sees of a token list: everything but newlines. */
  function Content(ts: seq<Token>): seq<Token> {
    if ts == [] then []
    else (if ts[0].kind == NewLine then [] else [Plain(ts[0])]) + Content(ts[1..])
  }

  function Lines(ts: seq<Token>): nat {
    if ts == [] then 0 else (if ts[0].kind == NewLine then 1 else 0) + Lines(ts[1..])
  }

  function NewLines(n: nat): (ts: seq<Token>)
    ensures |ts| == n
  {
    if n == 0 then [] else [Token(NewLine, NoData, 0)] + NewLines(n - 1)
  }

  lemma {:induction false} ContentSkips(n: nat, ts: seq<Token>)
    ensures Content(NewLines(n) + ts) == Content(ts)
    ensures Lines(NewLines(n) + ts) == n + Lines(ts)
  {
    if n == 0 {
      assert NewLines(n) + ts == ts;
    } else {
      ContentSkips(n - 1, ts);
      assert (NewLines(n) + ts)[1..] == NewLines(n - 1) + ts;
    }
  }

  /** A token put back behind the newlines it had skipped. */
  lemma Returned(t: Token, rest: seq<Token>)
    requires t.newlines >= 0
    ensures
      var all := [t.(newlines := -1)] + (NewLines(t.newlines) + rest);
      && Lines(all) == t.newlines + (if t.kind == NewLine then 1 else 0) + Lines(rest)
      && (t.kind != NewLine ==> Content(all) == [Plain(t)] + Content(rest))
  {
    var skipped := NewLines(t.newlines) + rest;
    ContentSkips(t.newlines, rest);
    assert ([t.(newlines := -1)] + skipped)[1..] == skipped;
  }

  /** The next token that is not a newline, if any, and what follows it. */
  function Skip(ts: seq<Token>): (n: nat)
    ensures n <= |ts|
    ensures forall i :: 0 <= i < n ==> ts[i].kind == NewLine
    ensures n < |ts| ==> ts[n].kind != NewLine
  {
    if ts == [] || ts[0].kind != NewLine then 0 else 1 + Skip(ts[1..])
  }

  lemma {:induction false} SkipContent(ts: seq<Token>)
    ensures
      var n := Skip(ts);
      && Content(ts) == Content(ts[n..])
      && Lines(ts) == n + Lines(ts[n..])
      && (Content(ts) == [] <==> n == |ts|)
      && (n < |ts| ==> Content(ts) == [Plain(ts[n])] + Content(ts[n + 1..]) && Lines(ts[n..]) == Lines(ts[n + 1..]))
    decreases |ts|
  {
    if ts == [] {
    } else if ts[0].kind != NewLine {
      assert ts[0..] == ts;
    } else {
      SkipContent(ts[1..]);
      var n := Skip(ts);
      assert ts[1..][n - 1..] == ts[n..];
      if n < |ts| {
        assert ts[1..][n..] == ts[n + 1..];
      }
    }
  }

  /**
   What a request for the kinds in `allow` (never newlines) does to the visible tokens: the token, or `NONE`,
   and what is left. A token without a kind always passes; a refused token stays.
   */
  function Got(ts: seq<Token>, allow: set<Kind>): (Token, seq<Token>) {
    if ts == [] then (NONE, ts)
    else if ts[0].kind == Invalid || ts[0].kind in allow then (Plain(ts[0]), ts[1..])
    else (NONE, ts)
  }

  class TokenServer {
    var buffer: seq<Token>  // the put-back stack, its top first
    const input: seq<Token>
    var it: nat
    var line: int
    var rejectToken: Token
    var rejectLine: int

    ghost predicate Valid()
      reads this
    {
      it <= |input|
    }

    /** Every token still to come, in order. */
    ghost function Remaining(): seq<Token>
      requires Valid()
      reads this
    {
      buffer + input[it..]
    }

    /** The tokens still to come that a parser can see. */
    ghost function Visible(): seq<Token>
      requires Valid()
      reads this
    {
      Content(Remaining())
    }

    /** The line counter plus the newlines still to come. */
    ghost function Total(): int
      requires Valid()
      reads this
    {
      line + Lines(Remaining())
    }

    /** No line past the last has been blamed for a rejected token. */
    ghost predicate Reported()
      requires Valid()
      reads this
    {
      rejectLine <= Total()
    }

    constructor (input: seq<Token>)
      ensures Valid() && Remaining() == input && line == 1 && this.input == input && Reported()
    {
      this.input := input;
      buffer, it, line, rejectToken, rejectLine := [], 0, 1, NONE, 1;
      new;
      assert input[0..] == input;
    }

    method XGetToken() returns (t: Token)
      requires Valid() && buffer == []
      modifies this`it
      ensures Valid()
      ensures
        if old(Remaining()) == [] then t == NONE && Remaining() == []
        else t == old(Remaining())[0] && Remaining() == old(Remaining())[1..]
    {
      if it == |input| {
        return NONE;
      }
      t := input[it];
      it := it + 1;
    }

    /** Takes one token, from the stack if there is any. */
    method Take() returns (t: Token)
      requires Valid()
      modifies this`buffer, this`it
      ensures Valid()
      ensures
        if old(Remaining()) == [] then t == NONE && Remaining() == []
        else t == old(Remaining())[0] && Remaining() == old(Remaining())[1..]
    {
      if buffer != [] {
        t := buffer[0];
        assert Remaining()[1..] == buffer[1..] + input[it..];
        buffer := buffer[1..];
      } else {
        t := XGetToken();
      }
    }

    /** Putting a token back restores the newlines it skipped, though now behind it: no line gets lost. */
    method PutBack(t0: Token)
      requires Valid() && t0.newlines >= 0
      modifies this`buffer, this`line, this`rejectToken, this`rejectLine
      ensures Valid()
      ensures Remaining() == [t0.(newlines := -1)] + (NewLines(t0.newlines) + old(Remaining()))
      ensures line == old(line) - t0.newlines - (if t0.kind == NewLine then 1 else 0)
      ensures rejectToken == t0 && rejectLine == old(line)
      ensures Total() == old(Total()) && Reported()
      ensures t0.kind != NewLine ==> Visible() == [Plain(t0)] + old(Visible())
    {
      hide Content, Lines, NewLines;
      Returned(t0, Remaining());
      var t := t0;
      rejectToken := t;
      rejectLine := line;
      line := line - t.newlines;
      if t.kind == NewLine {
        line := line - 1;
      }
      PushNewLines(t.newlines);
      t := t.(newlines := -1);
      ghost var before := Remaining();
      buffer := [t] + buffer;
      assert Remaining() == [t] + before;
    }

    /** The loop that pushes the skipped newlines back. */
    method PushNewLines(n: nat)
      requires Valid()
      modifies this`buffer
      ensures Valid() && Remaining() == NewLines(n) + old(Remaining())
    {
      ghost var rest := Remaining();
      assert NewLines(0) + rest == rest;
      for i := 0 to n
        invariant Valid() && Remaining() == NewLines(i) + rest
      {
        ghost var before := buffer;
        buffer := [Token(NewLine, NoData, 0)] + buffer;
        PushOne(before, input[it..], i, rest);
      }
    }

    /**
     A request for some kinds of tokens. Lines are conserved; if newlines are not asked for, the visible tokens
     change exactly as they should, and a refused request leaves them alone.
     */
    method GetToken(allow: set<Kind>) returns (t: Token)
      requires Valid()
      modifies this`buffer, this`it, this`line, this`rejectToken, this`rejectLine
      ensures Valid() && Total() == old(Total()) && t.newlines >= 0
      ensures NewLine !in allow ==> (Plain(t), Visible()) == Got(old(Visible()), allow)
      ensures t.kind == Invalid || t.kind in allow
      ensures old(Reported()) ==> Reported()
    {
      ghost var all := Remaining();
      t := NONE;
      var newlines := 0;
      SkipContent(all);
      while true
        invariant Valid() && newlines <= |all| && Remaining() == all[newlines..]
        invariant line == old(line) + newlines && rejectLine == old(rejectLine)
        invariant forall i :: 0 <= i < newlines ==> all[i].kind == NewLine
        invariant NewLine in allow ==> newlines == 0
        decreases |all| - newlines
      {
        t := Take();
        if t.kind == NewLine {
          line := line + 1;
          if NewLine in allow {
            break;
          }
          newlines := newlines + 1;
        } else {
          break;
        }
      }
      t := t.(newlines := newlines);
      TookOne(all, newlines, t);
      if t.kind != Invalid && t.kind !in allow {
        PutBack(t);
        return NONE;
      }
    }

    /** What is left after the loop of `GetToken`. */
    lemma TookOne(all: seq<Token>, n: nat, t: Token)
      requires Valid() && n <= |all| && (forall i :: 0 <= i < n ==> all[i].kind == NewLine)
      requires
        if n == |all| then Remaining() == [] && t.kind == Invalid
        else Remaining() == all[n + 1..] && Plain(t) == Plain(all[n])
      requires t.kind == NewLine ==> n == 0 && n < |all|
      requires n == |all| ==> Plain(t) == NONE
      ensures Lines(all) == n + (if t.kind == NewLine then 1 else 0) + Lines(Remaining())
      ensures t.kind != NewLine ==>
        if n == |all| then Content(all) == [] && Visible() == []
        else Content(all) == [Plain(t)] + Visible()
    {
      hide Content, Lines, Skip;
      if t.kind == NewLine {
        FirstIsNewLine(all);
      } else {
        SkipIs(all, n);
        SkipContent(all);
      }
    }
  }

  lemma FirstIsNewLine(ts: seq<Token>)
    requires ts != [] && ts[0].kind == NewLine
    ensures Lines(ts) == 1 + Lines(ts[1..])
  {
  }

  lemma PushOne(buffer: seq<Token>, input: seq<Token>, i: nat, rest: seq<Token>)
    requires buffer + input == NewLines(i) + rest
    ensures ([Token(NewLine, NoData, 0)] + buffer) + input == NewLines(i + 1) + rest
  {
    var t := [Token(NewLine, NoData, 0)];
    assert (t + buffer) + input == t + (buffer + input);
    assert t + (NewLines(i) + rest) == (t + NewLines(i)) + rest;
  }

  lemma SkipIs(ts: seq<Token>, n: nat)
    requires n <= |ts| && (forall i :: 0 <= i < n ==> ts[i].kind == NewLine) && (n < |ts| ==> ts[n].kind != NewLine)
    ensures Skip(ts) == n
  {
  }
}
