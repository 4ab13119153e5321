/**
 Saved quests: the progress map of src/quest.cpp nested in the record list of src/character.cpp, both plain
 text with separators.
 */
module QuestRecords {
  import opened Bytes

  // ---------- numbers ----------

  function DigitChar(d: nat): char
    requires d < 10
  {
    ('0' as int + d) as char
  }

  function Digits(n: nat): (s: string)
    ensures s != []
    ensures forall c :: c in s ==> '0' <= c <= '9'
  {
    if n < 10 then [DigitChar(n)] else Digits(n / 10) + [DigitChar(n % 10)]
  }

  /** `util::to_string` */
  function ToString(n: int): string {
    if n < 0 then "-" + Digits(-n) else Digits(n)
  }

  function DigitsValue(s: string): int {
    if s == [] then 0 else 10 * DigitsValue(s[..|s| - 1]) + (s[|s| - 1] as int - '0' as int)
  }

  /** `util::to_int` on decimal text */
  function ToInt(s: string): int {
    if s != [] && s[0] == '-' then -DigitsValue(s[1..]) else DigitsValue(s)
  }

  lemma {:induction false} DigitsRoundTrip(n: nat)
    ensures DigitsValue(Digits(n)) == n
  {
    if n >= 10 {
      DigitsRoundTrip(n / 10);
      assert Digits(n)[..|Digits(n)| - 1] == Digits(n / 10);
    }
  }

  lemma IntRoundTrip(n: int)
    ensures ToInt(ToString(n)) == n
  {
    if n < 0 {
      DigitsRoundTrip(-n);
      assert ToString(n)[1..] == Digits(-n);
    } else {
      DigitsRoundTrip(n);
      assert Digits(n)[0] in Digits(n);
    }
  }

  /** Decimal text: one digit character per digit, the highest first, behind a minus sign for negative numbers. */
  lemma DecimalText(n: nat, d: nat)
    requires d < 10
    ensures ToString(d) == ["0123456789"[d]]
    ensures n > 0 ==> ToString(10 * n + d) == ToString(n) + ["0123456789"[d]]
    ensures n > 0 ==> ToString(0 - n) == "-" + ToString(n)
  {
    assert (10 * n + d) / 10 == n && (10 * n + d) % 10 == d;
  }

  // ---------- progress ----------

  /** One entry of the progress map; a list of entries stands for the map in its iteration order. */
  datatype Entry = Entry(key: string, value: int)

  function EntryText(e: Entry): string {
    e.key + "=" + ToString(e.value)
  }

  function EntriesText(es: seq<Entry>): string {
    if es == [] then ""
    else if |es| == 1 then EntryText(es[0])
    else EntryText(es[0]) + "," + EntriesText(es[1..])
  }

  function ProgressText(es: seq<Entry>): string {
    "{" + EntriesText(es) + "}"
  }

  lemma {:induction false} EntriesTextNext(es: seq<Entry>, e: Entry)
    requires es != []
    ensures EntriesText(es + [e]) == EntriesText(es) + "," + EntryText(e)
    decreases |es|
  {
    hide EntryText;
    assert (es + [e])[1..] == es[1..] + [e];
    if |es| == 1 {
      assert es[1..] + [e] == [e];
    } else {
      EntriesTextNext(es[1..], e);
      Append4(EntryText(es[0]), EntriesText(es[1..]), EntryText(e));
    }
  }

  lemma Append4(a: string, b: string, c: string)
    ensures a + "," + (b + "," + c) == (a + "," + b) + "," + c
  {
  }

  /** The text of a progress map: braces around `key=value`, with commas between. */
  lemma ProgressTextNext(es: seq<Entry>, e: Entry)
    ensures ProgressText([]) == "{}"
    ensures ProgressText([e]) == "{" + e.key + "=" + ToString(e.value) + "}"
    ensures es != [] ==>
      && ProgressText(es) != ""
      && ProgressText(es + [e]) ==
           ProgressText(es)[..|ProgressText(es)| - 1] + "," + e.key + "=" + ToString(e.value) + "}"
  {
    hide ToString;
    if es != [] {
      EntriesTextNext(es, e);
      assert ProgressText(es)[..|ProgressText(es)| - 1] == "{" + EntriesText(es);
    }
  }

  method SerializeProgress(es: seq<Entry>) returns (s: string)
    ensures s == ProgressText(es)
  {
    hide EntriesText, EntryText, ToString;
    s := "{";
    for i := 0 to |es|
      invariant s + EntriesText(es[i..]) == "{" + EntriesText(es)
    {
      EntriesStep(s, es, i);
      s := s + es[i].key;
      s := s + "=";
      s := s + ToString(es[i].value);
      if i != |es| - 1 {
        s := s + ",";
      }
    }
    assert es[|es|..] == [];
    NoEntries(s);
    s := s + "}";
  }

  lemma Regroup(a: string, b: string, c: string)
    ensures a + (b + c) == (a + b) + c
  {
  }

  lemma NoEntries(s: string)
    ensures s + EntriesText([]) == s
  {
  }

  lemma EntriesStep(s: string, es: seq<Entry>, i: nat)
    requires i < |es|
    ensures
      var t := s + es[i].key + "=" + ToString(es[i].value);
      (if i != |es| - 1 then t + "," else t) + EntriesText(es[i + 1..]) == s + EntriesText(es[i..])
  {
    hide ToString;
    var v := ToString(es[i].value);
    assert es[i..][1..] == es[i + 1..];
    Append5(s, es[i].key, v, EntriesText(es[i + 1..]));
    if i == |es| - 1 {
      NoEntries(s + es[i].key + "=" + v);
    }
  }

  lemma Append5(s: string, k: string, v: string, r: string)
    ensures s + k + "=" + v == s + (k + "=" + v)
    ensures s + k + "=" + v + "," + r == s + ((k + "=" + v) + "," + r)
  {
  }

  /** The state of the progress reader. */
  datatype Reader = Reader(inValue: bool, key: string, value: int, progress: map<string, int>)

  /** What one character does. */
  function ReadChar(r: Reader, c: char): Reader {
    if !r.inValue then
      if c == '=' then r.(inValue := true) else r.(key := r.key + [c])
    else if c == ',' then
      Reader(false, "", 0, r.progress[r.key := r.value])
    else
      r.(value := Short(Short(r.value * 10) + (c as int - '0' as int)))
  }

  /** Reading characters up to a closing brace or the end. */
  function ReadUntilBrace(r: Reader, s: string): Reader
    decreases |s|
  {
    if s == [] || s[0] == '}' then r else ReadUntilBrace(ReadChar(r, s[0]), s[1..])
  }

  function Finished(r: Reader): map<string, int> {
    if r.inValue then r.progress[r.key := r.value] else r.progress
  }

  /** The first closing brace, or the end. */
  function BraceAt(s: string): (i: nat)
    ensures i <= |s| && '}' !in s[..i] && (i < |s| ==> s[i] == '}')
  {
    if s == [] || s[0] == '}' then 0 else 1 + BraceAt(s[1..])
  }

  /** What reading a text adds to a progress map. */
  function ReadProgress(progress: map<string, int>, s: string): map<string, int> {
    if s == [] || s[0] != '{' then progress else Finished(ReadUntilBrace(Reader(false, "", 0, progress), s[1..]))
  }

  /** Returns the progress map and where reading stopped. */
  method UnserializeProgress(progress0: map<string, int>, s: string) returns (progress: map<string, int>, it: nat)
    ensures progress == ReadProgress(progress0, s)
    ensures s != [] && s[0] == '{' ==> var b := 1 + BraceAt(s[1..]); it == if b < |s| then b + 1 else |s|
    ensures s == [] || s[0] != '{' ==> it == 0
  {
    progress, it := progress0, 0;
    if s == [] || s[0] != '{' {
      return;
    }
    it := 1;
    var key: string := "";
    var value := 0;
    var state := 0;
    while it < |s| && s[it] != '}'
      invariant 1 <= it <= |s| && (state == 0 || state == 1)
      invariant ReadUntilBrace(Reader(state == 1, key, value, progress), s[it..])
        == ReadUntilBrace(Reader(false, "", 0, progress0), s[1..])
      invariant it + BraceAt(s[it..]) == 1 + BraceAt(s[1..])
    {
      if state == 0 {
        if s[it] == '=' {
          state := 1;
        } else {
          key := key + [s[it]];
        }
      } else {
        if s[it] == ',' {
          progress := progress[key := value];
          key := "";
          value := 0;
          state := 0;
        } else {
          value := Short(value * 10);
          value := Short(value + (s[it] as int - '0' as int));
        }
      }
      it := it + 1;
    }
    if state == 1 {
      progress := progress[key := value];
    }
    if it != |s| {
      it := it + 1;
    }
  }

  // ---------- progress round trip ----------

  ghost predicate KeyFits(key: string) {
    '=' !in key && '}' !in key
  }

  /** Values are shorts, any short; keys must not look like the punctuation around them. */
  ghost predicate EntryFits(e: Entry) {
    KeyFits(e.key) && -32768 <= e.value <= 32767
  }

  function Pow10(k: nat): nat {
    if k == 0 then 1 else 10 * Pow10(k - 1)
  }

  /** What a written value is read as: the sign counts as a digit, of value -3. */
  function Reread(v: int): int {
    if v >= 0 then v else Short(-3 * Pow10(|Digits(-v)|) - v)
  }

  /** The values that come back as they were written. */
  predicate ReadsBack(v: int) {
    v >= 0 || v == -18928
  }

  lemma {:induction false} DigitsLength(n: nat, k: nat)
    requires k >= 1 && n < Pow10(k) && (k == 1 || n >= Pow10(k - 1))
    ensures |Digits(n)| == k
    decreases k
  {
    if k > 1 {
      if k == 2 {
        assert Pow10(1) == 10;
      } else {
        assert Pow10(k - 1) == 10 * Pow10(k - 2);
      }
      DigitsLength(n / 10, k - 1);
    }
  }

  lemma Powers()
    ensures Pow10(0) == 1 && Pow10(1) == 10 && Pow10(2) == 100 && Pow10(3) == 1000
    ensures Pow10(4) == 10000 && Pow10(5) == 100000
  {
    assert Pow10(2) == 10 * Pow10(1);
    assert Pow10(3) == 10 * Pow10(2);
    assert Pow10(4) == 10 * Pow10(3);
    assert Pow10(5) == 10 * Pow10(4);
  }

  /** Of all shorts, the non-negative ones and one other survive the sign. */
  lemma RereadIff(v: int)
    requires -32768 <= v <= 32767
    ensures Reread(v) == v <==> ReadsBack(v)
  {
    Powers();
    if v < 0 {
      var n := -v;
      var k := if n < 10 then 1 else if n < 100 then 2 else if n < 1000 then 3 else if n < 10000 then 4 else 5;
      hide Pow10, Digits;
      DigitsLength(n, k);
    }
  }

  lemma {:induction false} ReadKey(r: Reader, key: string, rest: string)
    requires !r.inValue && KeyFits(key)
    ensures ReadUntilBrace(r, key + "=" + rest) == ReadUntilBrace(r.(inValue := true, key := r.key + key), rest)
    decreases |key|
  {
    var s := key + "=" + rest;
    if key == [] {
      assert s[0] == '=' && s[1..] == rest && r.key + key == r.key;
    } else {
      var c := key[0];
      assert c in key;
      assert s[0] == c && s[1..] == key[1..] + "=" + rest;
      ReadKey(r.(key := r.key + [c]), key[1..], rest);
      assert r.key + [c] + key[1..] == r.key + key;
    }
  }

  lemma {:induction false} ReadDigits(r: Reader, n: nat, rest: string)
    requires r.inValue
    ensures ReadUntilBrace(r, Digits(n) + rest)
      == ReadUntilBrace(r.(value := Short(r.value * Pow10(|Digits(n)|) + n)), rest)
    decreases n
  {
    hide ReadUntilBrace, ReadChar, DigitChar, Pow10;
    var c := DigitChar(n % 10);
    DigitIsNoBrace(n % 10);
    if n < 10 {
      PowNext(0);
      ReadDigit(r, r.value, n);
      ReadOne(r, c, rest);
    } else {
      var y := r.value * Pow10(|Digits(n / 10)|) + n / 10;
      ReadDigits(r, n / 10, [c] + rest);
      Regroup(Digits(n / 10), [c], rest);
      ReadDigit(r, Short(y), n % 10);
      ShortOfShort(y, n % 10);
      ReadOne(r.(value := Short(y)), c, rest);
      PowNext(|Digits(n / 10)|);
      NextPlace(r.value, Pow10(|Digits(n / 10)|), n);
    }
  }

  lemma PowNext(k: nat)
    ensures Pow10(k + 1) == 10 * Pow10(k) && (k == 0 ==> Pow10(k) == 1)
  {
  }

  lemma NextPlace(w: int, p: nat, n: nat)
    ensures 10 * (w * p + n / 10) + n % 10 == w * (10 * p) + n
  {
    assert w * (10 * p) == 10 * (w * p);
  }

  /** Intermediate wrap-arounds do not show in the end. */
  lemma ShortOfShort(y: int, d: int)
    ensures Short(10 * Short(y) + d) == Short(10 * y + d)
  {
    var q := (y + 32768) / 65536;
    assert Short(y) == y - 65536 * q;
    ShortTurns(10 * y + d, 10 * q);
  }

  lemma ShortTurns(n: int, q: int)
    ensures Short(n - 65536 * q) == Short(n)
  {
  }

  lemma DigitIsNoBrace(d: nat)
    requires d < 10
    ensures DigitChar(d) != '}'
  {
  }

  lemma ReadDigit(r: Reader, v: int, d: nat)
    requires r.inValue && d < 10
    ensures ReadChar(r.(value := v), DigitChar(d)) == r.(value := Short(10 * v + d))
  {
    var q := (10 * v + 32768) / 65536;
    assert Short(10 * v) == 10 * v - 65536 * q;
    ShortTurns(10 * v + d, q);
  }

  /** A whole value, with its sign. */
  lemma ReadValue(r: Reader, v: int, rest: string)
    requires r.inValue && r.value == 0 && -32768 <= v <= 32767
    ensures ReadUntilBrace(r, ToString(v) + rest) == ReadUntilBrace(r.(value := Reread(v)), rest)
  {
    hide ReadUntilBrace, Digits, Pow10;
    if v >= 0 {
      ReadDigits(r, v, rest);
    } else {
      assert ToString(v) + rest == ['-'] + (Digits(-v) + rest);
      ReadOne(r, '-', Digits(-v) + rest);
      assert ReadChar(r, '-') == r.(value := -3);
      ReadDigits(r.(value := -3), -v, rest);
    }
  }

  lemma ReadOne(r: Reader, c: char, rest: string)
    requires c != '}'
    ensures ReadUntilBrace(r, [c] + rest) == ReadUntilBrace(ReadChar(r, c), rest)
  {
    hide ReadChar;
    assert ([c] + rest)[1..] == rest;
  }

  /** One entry, up to what ends it. */
  lemma ReadEntry(m: map<string, int>, e: Entry, end: string)
    requires EntryFits(e)
    ensures ReadUntilBrace(Reader(false, "", 0, m), EntryText(e) + end)
      == ReadUntilBrace(Reader(true, e.key, Reread(e.value), m), end)
  {
    hide ToString, Reread;
    assert EntryText(e) + end == e.key + "=" + (ToString(e.value) + end);
    ReadKey(Reader(false, "", 0, m), e.key, ToString(e.value) + end);
    assert "" + e.key == e.key;
    ReadValue(Reader(true, e.key, 0, m), e.value, end);
  }

  /** The entries of a progress text, read from scratch, are added to the map one after the other. */
  lemma {:induction false} ReadEntries(m: map<string, int>, es: seq<Entry>, tail: string)
    requires forall e :: e in es ==> EntryFits(e)
    ensures Finished(ReadUntilBrace(Reader(false, "", 0, m), EntriesText(es) + ("}" + tail))) == Added(m, es)
    decreases |es|
  {
    hide EntryText, Reread;
    if es == [] {
      assert (EntriesText(es) + ("}" + tail))[0] == '}';
    } else {
      var e, rest := es[0], es[1..];
      assert e in es;
      if |es| == 1 {
        ReadEntry(m, e, "}" + tail);
        assert rest == [];
      } else {
        var end := EntriesText(rest) + ("}" + tail);
        assert EntriesText(es) + ("}" + tail) == EntryText(e) + ("," + end);
        ReadEntry(m, e, "," + end);
        NextEntry(Reader(true, e.key, Reread(e.value), m), end);
        ReadEntries(m[e.key := Reread(e.value)], rest, tail);
      }
    }
  }

  lemma NextEntry(r: Reader, end: string)
    requires r.inValue
    ensures ReadUntilBrace(r, "," + end) == ReadUntilBrace(Reader(false, "", 0, r.progress[r.key := r.value]), end)
  {
    assert ("," + end)[1..] == end;
  }

  /** Entries added to a map in order, with the values that are read for them. */
  ghost function Added(m: map<string, int>, es: seq<Entry>): map<string, int>
    decreases |es|
  {
    if es == [] then m else Added(m[es[0].key := Reread(es[0].value)], es[1..])
  }

  /** The entries list the map: every key once, with its value. */
  ghost predicate Lists(es: seq<Entry>, m: map<string, int>) {
    && (forall i, j :: 0 <= i < j < |es| ==> es[i].key != es[j].key)
    && (forall e :: e in es ==> e.key in m && m[e.key] == e.value)
    && (forall k :: k in m ==> exists i :: 0 <= i < |es| && es[i].key == k)
  }

  lemma {:induction false} AddedEntries(m: map<string, int>, es: seq<Entry>, k: string)
    requires forall i, j :: 0 <= i < j < |es| ==> es[i].key != es[j].key
    ensures k in Added(m, es) <==> k in m || exists i :: 0 <= i < |es| && es[i].key == k
    ensures forall i :: 0 <= i < |es| && es[i].key == k ==> Added(m, es)[k] == Reread(es[i].value)
    ensures (forall i :: 0 <= i < |es| ==> es[i].key != k) && k in m ==> Added(m, es)[k] == m[k]
    decreases |es|
  {
    if es != [] {
      var rest := es[1..];
      AddedEntries(m[es[0].key := Reread(es[0].value)], rest, k);
      assert forall i :: 0 < i < |es| ==> es[i] == rest[i - 1];
      assert (exists i :: 0 <= i < |es| && es[i].key == k)
        <==> es[0].key == k || exists i :: 0 <= i < |rest| && rest[i].key == k by {
        assert forall i :: 0 <= i < |rest| ==> rest[i] == es[i + 1];
      }
    }
  }

  /** An entry read later replaces one of the same key. */
  lemma {:induction false} AddedNext(m: map<string, int>, es: seq<Entry>, e: Entry)
    ensures Added(m, []) == m && Added(m, es + [e]) == Added(m, es)[e.key := Reread(e.value)]
    decreases |es|
  {
    hide Reread;
    if es == [] {
      assert [e][1..] == [];
      assert [] + [e] == [e];
    } else {
      AddedNext(m[es[0].key := Reread(es[0].value)], es[1..], e);
      assert (es + [e])[1..] == es[1..] + [e];
    }
  }

  /**
   Reading adds to the map that is there: nothing from a text that does not begin with a brace, and every entry of one
   that does, whatever stands behind its closing brace.
   */
  lemma ReadExact(m: map<string, int>, es: seq<Entry>, s: string)
    requires forall e :: e in es ==> EntryFits(e)
    ensures s == "" || s[0] != '{' ==> ReadProgress(m, s) == m
    ensures ReadProgress(m, ProgressText(es) + s) == Added(m, es)
  {
    hide EntriesText, EntryFits;
    var t := ProgressText(es) + s;
    assert t[0] == '{' && t[1..] == EntriesText(es) + ("}" + s);
    ReadEntries(m, es, s);
  }

  lemma TextIsAdded(es: seq<Entry>)
    requires forall e :: e in es ==> EntryFits(e)
    ensures ReadProgress(map[], ProgressText(es)) == Added(map[], es)
  {
    hide EntriesText, EntryFits;
    var s := ProgressText(es);
    assert s[0] == '{' && s[1..] == EntriesText(es) + ("}" + "");
    ReadEntries(map[], es, "");
  }

  /**
   Writing and reading a progress map of shorts gives it back if and only if every value reads back: if it is not
   negative, or happens to be -18928.
   */
  lemma ProgressRoundTrip(es: seq<Entry>, m: map<string, int>)
    requires Lists(es, m) && forall e :: e in es ==> EntryFits(e)
    ensures ReadProgress(map[], ProgressText(es)) == m <==> forall e :: e in es ==> ReadsBack(e.value)
  {
    var r := Added(map[], es);
    TextIsAdded(es);
    hide Added, ReadProgress, ProgressText, Reread, ReadsBack;
    forall i | 0 <= i < |es|
      ensures es[i].key in r && r[es[i].key] == Reread(es[i].value)
      ensures r[es[i].key] == m[es[i].key] <==> ReadsBack(es[i].value)
    {
      AddedEntries(map[], es, es[i].key);
      assert es[i] in es;
      RereadIff(es[i].value);
    }
    forall k
      ensures k in r <==> k in m
    {
      AddedEntries(map[], es, k);
    }
    if forall e :: e in es ==> ReadsBack(e.value) {
      forall k | k in m
        ensures r[k] == m[k]
      {
        var i :| 0 <= i < |es| && es[i].key == k;
        assert es[i] in es;
      }
      assert r == m;
    }
  }

  /** One entry alone: what is read for it, and exactly the values for which that is the entry itself. */
  lemma EntryRoundTrip(key: string, v: int)
    requires KeyFits(key) && -32768 <= v <= 32767
    ensures ReadProgress(map[], ProgressText([Entry(key, v)])) == map[key := Reread(v)]
    ensures ReadProgress(map[], ProgressText([Entry(key, v)])) == map[key := v] <==> v >= 0 || v == -18928
  {
    hide ReadProgress, ProgressText, KeyFits, Reread;
    var es, m := [Entry(key, v)], map[key := v];
    assert es[0] in es && es[0].key == key;
    assert Lists(es, m);
    ProgressRoundTrip(es, m);
    TextIsAdded(es);
    assert es[1..] == [];
    assert Added(map[], es) == Added(map[key := Reread(v)], []);
  }

  /** For example, -1 comes back as -29. */
  lemma NegativeValueChanges()
    ensures ReadProgress(map[], ProgressText([Entry("k", -1)])) == map["k" := -29]
  {
    EntryRoundTrip("k", -1);
    Powers();
    DigitsLength(1, 1);
  }

  // ---------- record lists ----------

  datatype Record = Record(id: int, state: string, progress: string)

  /** A slot of the active quest map; its pointer may be null. */
  datatype Slot = Slot(id: int, quest: Option<Active>)

  datatype Active = Active(state: string, progress: seq<Entry>)

  function RecordText(r: Record): string {
    ToString(r.id) + "," + r.state + "," + r.progress + ";"
  }

  function RecordsText(rs: seq<Record>): string {
    if rs == [] then "" else RecordText(rs[0]) + RecordsText(rs[1..])
  }

  /** The records of the active quests. */
  function ActiveRecords(slots: seq<Slot>): seq<Record> {
    if slots == [] then []
    else
      var s := slots[0];
      (if s.quest.Some? then [Record(s.id, s.quest.value.state, ProgressText(s.quest.value.progress))] else [])
      + ActiveRecords(slots[1..])
  }

  predicate IsActive(slots: seq<Slot>, id: int) {
    exists i :: 0 <= i < |slots| && slots[i].id == id
  }

  /** The inactive records whose quest was not restarted. */
  function KeptRecords(slots: seq<Slot>, inactive: seq<Record>): seq<Record> {
    if inactive == [] then []
    else
      (if IsActive(slots, inactive[0].id) then [] else [inactive[0]]) + KeptRecords(slots, inactive[1..])
  }

  /** The text of a record list: `id,state,progress;` for each. */
  lemma RecordsTextNext(rs: seq<Record>, r: Record)
    ensures RecordsText([]) == ""
    ensures RecordsText(rs + [r]) == RecordsText(rs) + ToString(r.id) + "," + r.state + "," + r.progress + ";"
  {
    hide ToString;
    RecordsTextConcat(rs, [r]);
    assert [r][1..] == [];
    assert RecordsText([r]) == RecordText(r);
    Append7(RecordsText(rs), ToString(r.id), r.state, r.progress);
  }

  lemma Append7(a: string, b: string, c: string, d: string)
    ensures a + (b + "," + c + "," + d + ";") == a + b + "," + c + "," + d + ";"
  {
  }

  /** An active quest is saved with its state and progress; a slot without one is passed over. */
  lemma {:induction false} ActiveNext(slots: seq<Slot>, s: Slot)
    ensures ActiveRecords([]) == []
    ensures ActiveRecords(slots + [s]) == ActiveRecords(slots)
      + (if s.quest.None? then [] else [Record(s.id, s.quest.value.state, ProgressText(s.quest.value.progress))])
    decreases |slots|
  {
    hide ProgressText;
    if slots == [] {
      assert [s][1..] == [];
      assert [] + [s] == [s];
    } else {
      ActiveNext(slots[1..], s);
      assert (slots + [s])[1..] == slots[1..] + [s];
    }
  }

  lemma {:induction false} KeptAppend(slots: seq<Slot>, inactive: seq<Record>, r: Record)
    ensures KeptRecords(slots, inactive + [r])
      == KeptRecords(slots, inactive) + (if IsActive(slots, r.id) then [] else [r])
    decreases |inactive|
  {
    hide IsActive;
    if inactive == [] {
      assert [r][1..] == [];
      assert [] + [r] == [r];
    } else {
      KeptAppend(slots, inactive[1..], r);
      assert (inactive + [r])[1..] == inactive[1..] + [r];
    }
  }

  /** An inactive record is saved as it is, unless its quest has a slot among the active ones. */
  lemma KeptNext(slots: seq<Slot>, inactive: seq<Record>, r: Record)
    ensures KeptRecords(slots, []) == []
    ensures KeptRecords(slots, inactive + [r]) == KeptRecords(slots, inactive)
      + (if exists i :: 0 <= i < |slots| && slots[i].id == r.id then [] else [r])
  {
    KeptAppend(slots, inactive, r);
    hide KeptRecords;
    NoneKept(slots);
  }

  lemma NoneKept(slots: seq<Slot>)
    ensures KeptRecords(slots, []) == []
  {
  }

  lemma {:induction false} RecordsTextConcat(a: seq<Record>, b: seq<Record>)
    ensures RecordsText(a + b) == RecordsText(a) + RecordsText(b)
    decreases |a|
  {
    hide RecordText;
    if a == [] {
      assert a + b == b;
    } else {
      RecordsTextConcat(a[1..], b);
      assert (a + b)[1..] == a[1..] + b;
      Regroup(RecordText(a[0]), RecordsText(a[1..]), RecordsText(b));
    }
  }

  method AppendRecord(s: string, id: int, state: string, progress: string) returns (r: string)
    ensures r == s + RecordText(Record(id, state, progress))
  {
    hide ToString;
    r := s + ToString(id);
    r := r + ",";
    r := r + state;
    r := r + ",";
    r := r + progress;
    r := r + ";";
  }

  /** The first loop of `QuestSerialize`. */
  method AppendActive(s0: string, slots: seq<Slot>) returns (s: string)
    ensures s == s0 + RecordsText(ActiveRecords(slots))
  {
    hide ProgressText, RecordsText, RecordText, ActiveRecords;
    s := s0;
    assert slots[0..] == slots;
    for i := 0 to |slots|
      invariant s + RecordsText(ActiveRecords(slots[i..])) == s0 + RecordsText(ActiveRecords(slots))
    {
      ActiveStep(slots, i);
      if slots[i].quest.None? {
        continue;
      }
      var progress := SerializeProgress(slots[i].quest.value.progress);
      OneRecordText(s, Record(slots[i].id, slots[i].quest.value.state, progress), ActiveRecords(slots[i + 1..]));
      s := AppendRecord(s, slots[i].id, slots[i].quest.value.state, progress);
    }
    assert slots[|slots|..] == [];
    NoRecords(s, slots, []);
  }

  /** The second loop of `QuestSerialize`. */
  method AppendInactive(s0: string, slots: seq<Slot>, inactive: seq<Record>) returns (s: string)
    ensures s == s0 + RecordsText(KeptRecords(slots, inactive))
  {
    hide RecordsText, RecordText, KeptRecords;
    s := s0;
    assert inactive[0..] == inactive;
    for i := 0 to |inactive|
      invariant s + RecordsText(KeptRecords(slots, inactive[i..])) == s0 + RecordsText(KeptRecords(slots, inactive))
    {
      KeptStep(slots, inactive, i);
      var r := inactive[i];
      if IsActive(slots, r.id) {
        continue;
      }
      OneRecordText(s, r, KeptRecords(slots, inactive[i + 1..]));
      s := AppendRecord(s, r.id, r.state, r.progress);
    }
    assert inactive[|inactive|..] == [];
    NoRecords(s, slots, inactive);
  }

  lemma ActiveStep(slots: seq<Slot>, i: nat)
    requires i < |slots|
    ensures
      var s := slots[i];
      ActiveRecords(slots[i..]) ==
        if s.quest.None? then ActiveRecords(slots[i + 1..])
        else [Record(s.id, s.quest.value.state, ProgressText(s.quest.value.progress))] + ActiveRecords(slots[i + 1..])
  {
    hide ProgressText;
    assert slots[i..][1..] == slots[i + 1..];
  }

  lemma KeptStep(slots: seq<Slot>, inactive: seq<Record>, i: nat)
    requires i < |inactive|
    ensures
      KeptRecords(slots, inactive[i..]) ==
        if IsActive(slots, inactive[i].id) then KeptRecords(slots, inactive[i + 1..])
        else [inactive[i]] + KeptRecords(slots, inactive[i + 1..])
  {
    assert inactive[i..][1..] == inactive[i + 1..];
  }

  lemma NoRecords(s: string, slots: seq<Slot>, inactive: seq<Record>)
    ensures s + RecordsText(ActiveRecords([])) == s
    ensures s + RecordsText(KeptRecords(slots, [])) == s
  {
  }

  method QuestSerialize(slots: seq<Slot>, inactive: seq<Record>) returns (s: string)
    ensures s == RecordsText(ActiveRecords(slots) + KeptRecords(slots, inactive))
  {
    hide *;
    RecordsTextConcat(ActiveRecords(slots), KeptRecords(slots, inactive));
    s := AppendActive("", slots);
    s := AppendInactive(s, slots, inactive);
  }

  lemma OneRecordText(s: string, r: Record, rest: seq<Record>)
    ensures s + RecordText(r) + RecordsText(rest) == s + RecordsText([r] + rest)
  {
    hide RecordText;
    assert ([r] + rest)[1..] == rest;
    Regroup(s, RecordText(r), RecordsText(rest));
  }

  // ---------- splitting ----------

  /** The pieces between the delimiters; always at least one. */
  function Split(s: string, c: char): (parts: seq<string>)
    ensures parts != []
    decreases |s|
  {
    var i := Find(s, c, 0);
    if i == |s| then [s] else [s[..i]] + Split(s[i + 1..], c)
  }

  /** The pieces, with the delimiter between them. */
  function Joined(parts: seq<string>, c: char): string {
    if parts == [] then "" else if |parts| == 1 then parts[0] else parts[0] + [c] + Joined(parts[1..], c)
  }

  /** Splitting takes out exactly the delimiters. */
  lemma {:induction false} SplitExact(s: string, c: char)
    ensures Joined(Split(s, c), c) == s && forall part :: part in Split(s, c) ==> c !in part
    decreases |s|
  {
    var i := Find(s, c, 0);
    if i < |s| {
      SplitExact(s[i + 1..], c);
      assert s == s[..i] + [c] + s[i + 1..];
      assert Split(s, c)[1..] == Split(s[i + 1..], c);
    }
  }

  method Explode(delimiter: char, str: string) returns (pieces: seq<string>)
    ensures pieces == Split(str, delimiter)
  {
    hide Split;
    var lastpos := 0;
    pieces := [];
    var pos := Find(str, delimiter, 0);
    assert str[0..] == str;
    while pos != |str|
      invariant 0 <= lastpos <= pos <= |str|
      invariant pos == lastpos + Find(str[lastpos..], delimiter, 0)
      invariant pieces + Split(str[lastpos..], delimiter) == Split(str, delimiter)
      decreases |str| - lastpos
    {
      SplitOnce(str, delimiter, lastpos, pos);
      pieces := pieces + [str[lastpos..pos]];
      lastpos := pos + 1;
      FindShift(str, delimiter, lastpos, lastpos);
      pos := Find(str, delimiter, pos + 1);
    }
    SplitLast(str[lastpos..], delimiter);
    pieces := pieces + [str[lastpos..]];
  }

  lemma {:induction false} FindShift(s: string, c: char, base: nat, from: nat)
    requires base <= from <= |s|
    ensures Find(s, c, from) == base + Find(s[base..], c, from - base)
    decreases |s| - from
  {
    if from < |s| && s[from] != c {
      FindShift(s, c, base, from + 1);
    }
  }

  lemma SplitLast(s: string, c: char)
    requires Find(s, c, 0) == |s|
    ensures Split(s, c) == [s]
  {
  }

  lemma SplitOnce(s: string, c: char, base: nat, pos: nat)
    requires base <= pos < |s| && pos == base + Find(s[base..], c, 0)
    ensures Split(s[base..], c) == [s[base..pos]] + Split(s[pos + 1..], c)
  {
    var t := s[base..];
    assert t[..pos - base] == s[base..pos] && t[pos - base + 1..] == s[pos + 1..];
  }

  /** A piece without the delimiter, in front of one. */
  lemma SplitPiece(a: string, c: char, b: string)
    requires c !in a
    ensures Split(a + [c] + b, c) == [a] + Split(b, c)
  {
    var s := a + [c] + b;
    FindFirst(a, c, b);
    assert s[..|a|] == a && s[|a| + 1..] == b;
  }

  lemma FindFirst(a: string, c: char, b: string)
    requires c !in a
    ensures Find(a + [c] + b, c, 0) == |a|
  {
    var s := a + [c] + b;
    assert s[|a|] == c;
    assert forall i :: 0 <= i < |a| ==> s[i] == a[i] && a[i] in a;
  }

  // ---------- reading records ----------

  /** Text that is not in the current format is replaced by an empty progress. */
  function Converted(progress: string): string {
    if progress != "" && progress[0] != '{' then "{}" else progress
  }

  /** What one piece stands for, if anything. */
  function ParseRecord(part: string): Option<Record> {
    var pp1 := Find(part, ',', 0);
    if pp1 == |part| then None
    else
      var id := Short(ToInt(part[..pp1]));
      var pp2 := Find(part, ',', pp1 + 1);
      if pp2 < |part| then Some(Record(id, part[pp1 + 1..pp2], Converted(part[pp2 + 1..])))
      else Some(Record(id, part[pp1 + 1..Find(part, ';', pp1 + 1)], "{}"))
  }

  lemma PieceOfOne(a: string)
    requires ',' !in a
    ensures ParseRecord(a) == None
  {
    FindAt(a, ',', 0, |a|);
  }

  lemma PieceOfTwo(a: string, b: string)
    requires ',' !in a && ',' !in b && ';' !in b
    ensures ParseRecord(a + "," + b) == Some(Record(Short(ToInt(a)), b, "{}"))
  {
    hide ToInt, Short;
    var s := a + "," + b;
    FindAt(s, ',', 0, |a|);
    FindAt(s, ',', |a| + 1, |s|);
    FindAt(s, ';', |a| + 1, |s|);
    assert s[..|a|] == a && s[|a| + 1..|s|] == b;
  }

  lemma PieceOfThree(a: string, b: string, c: string)
    requires ',' !in a && ',' !in b
    ensures ParseRecord(a + "," + b + "," + c) == Some(Record(Short(ToInt(a)), b, Converted(c)))
  {
    hide ToInt, Short, Converted;
    var s := a + "," + b + "," + c;
    var i := |a| + 1 + |b|;
    FindAt(s, ',', 0, |a|);
    FindAt(s, ',', |a| + 1, i);
    assert s[..|a|] == a && s[|a| + 1..i] == b && s[i + 1..] == c;
  }

  /**
   A piece without a comma stands for nothing; with one it names a quest, its number cut to a short, and a state; with
   two a progress text, too, which is replaced by an empty one if it is not in braces.
   */
  lemma PieceExact(a: string, b: string, c: string)
    requires ',' !in a && ',' !in b && ';' !in b
    ensures ParseRecord(a) == None
    ensures ParseRecord(a + "," + b) == Some(Record(Short(ToInt(a)), b, "{}"))
    ensures ParseRecord(a + "," + b + "," + c)
      == Some(Record(Short(ToInt(a)), b, if c == "" || c[0] == '{' then c else "{}"))
  {
    hide ParseRecord, ToInt, Short;
    PieceOfOne(a);
    PieceOfTwo(a, b);
    PieceOfThree(a, b, c);
  }

  lemma FindAt(s: string, c: char, from: nat, i: nat)
    requires from <= i <= |s| && (forall j :: from <= j < i ==> s[j] != c) && (i < |s| ==> s[i] == c)
    ensures Find(s, c, from) == i
  {
  }

  function ParseRecords(parts: seq<string>): seq<Record> {
    if parts == [] then []
    else
      var r := ParseRecord(parts[0]);
      (if r.Some? then [r.value] else []) + ParseRecords(parts[1..])
  }

  method QuestUnserialize(serialized: string) returns (rs: seq<Record>)
    ensures rs == ParseRecords(Split(serialized, ';'))
  {
    hide ParseRecord;
    var parts := Explode(';', serialized);
    rs := [];
    for i := 0 to |parts|
      invariant rs + ParseRecords(parts[i..]) == ParseRecords(parts)
    {
      var r := ParseRecord(parts[i]);
      assert parts[i..][1..] == parts[i + 1..];
      if r.None? {
        continue;
      }
      rs := rs + [r.value];
    }
    assert parts[|parts|..] == [];
  }

  ghost predicate RecordFits(r: Record) {
    && -32768 <= r.id <= 32767
    && ',' !in r.state && ';' !in r.state && ';' !in r.progress
  }

  lemma ParseRecordText(r: Record)
    requires RecordFits(r)
    ensures ParseRecord(ToString(r.id) + "," + r.state + "," + r.progress)
      == Some(Record(r.id, r.state, Converted(r.progress)))
  {
    hide ToString, ToInt, Converted;
    var a := ToString(r.id);
    var t := r.state + "," + r.progress;
    var part := a + "," + t;
    assert part == a + "," + r.state + "," + r.progress;
    NoSeparator(r.id);
    FindFirst(a, ',', t);
    FindFirst(r.state, ',', r.progress);
    FindShift(part, ',', |a| + 1, |a| + 1);
    assert part[..|a|] == a && part[|a| + 1..] == t;
    IntRoundTrip(r.id);
    var pp2 := |a| + 1 + |r.state|;
    assert part[|a| + 1..pp2] == r.state && part[pp2 + 1..] == r.progress;
  }

  lemma NoSeparator(n: int)
    ensures ',' !in ToString(n) && ';' !in ToString(n)
  {
  }

  function ConvertedAll(rs: seq<Record>): seq<Record> {
    if rs == [] then [] else [rs[0].(progress := Converted(rs[0].progress))] + ConvertedAll(rs[1..])
  }

  /**
   Writing a record list and reading it back gives the same ids and states, and the same progress texts
   except for those in an outdated format.
   */
  lemma {:induction false} RecordsRoundTrip(rs: seq<Record>)
    requires forall r :: r in rs ==> RecordFits(r)
    ensures ParseRecords(Split(RecordsText(rs), ';')) == ConvertedAll(rs)
    decreases |rs|
  {
    hide ParseRecord, Converted;
    if rs == [] {
      assert ParseRecord("").None? by {
        EmptyPart();
      }
    } else {
      var r := rs[0];
      assert r in rs;
      var piece := ToString(r.id) + "," + r.state + "," + r.progress;
      RecordsRoundTrip(rs[1..]);
      ParseRecordText(r);
      NoSeparator(r.id);
      assert ';' !in piece;
      SplitPiece(piece, ';', RecordsText(rs[1..]));
    }
  }

  lemma EmptyPart()
    ensures ParseRecord("").None?
  {
  }

  /**
   The progress of an active quest, nested in the record list wherever it stands there, comes back if and only if
   its values read back; the ids and states of all records come back in any case.
   */
  lemma QuestRoundTrip(rs: seq<Record>, i: nat, es: seq<Entry>, m: map<string, int>)
    requires i < |rs| && forall r :: r in rs ==> RecordFits(r)
    requires rs[i].progress == ProgressText(es)
    requires Lists(es, m) && forall e :: e in es ==> EntryFits(e)
    ensures
      var read := ParseRecords(Split(RecordsText(rs), ';'));
      && |read| == |rs|
      && read[i].id == rs[i].id && read[i].state == rs[i].state
      && (ReadProgress(map[], read[i].progress) == m <==> forall e :: e in es ==> ReadsBack(e.value))
  {
    hide Split, ParseRecords, RecordsText, ReadProgress;
    RecordsRoundTrip(rs);
    ConvertedAt(rs, i);
    ProgressRoundTrip(es, m);
  }

  /** A progress text whose keys have no ';' can be nested in a record. */
  lemma ProgressFits(es: seq<Entry>)
    requires forall e :: e in es ==> ';' !in e.key
    ensures ';' !in ProgressText(es)
  {
    NoSemicolon(es);
  }

  lemma {:induction false} NoSemicolon(es: seq<Entry>)
    requires forall e :: e in es ==> ';' !in e.key
    ensures ';' !in EntriesText(es)
    decreases |es|
  {
    hide ToString;
    if es != [] {
      assert es[0] in es;
      NoSeparator(es[0].value);
      NoSemicolon(es[1..]);
    }
  }

  lemma {:induction false} ConvertedAt(rs: seq<Record>, i: nat)
    requires i < |rs|
    ensures |ConvertedAll(rs)| == |rs| && ConvertedAll(rs)[i] == rs[i].(progress := Converted(rs[i].progress))
    decreases |rs|
  {
    hide Converted;
    if i > 0 {
      ConvertedAt(rs[1..], i - 1);
    } else {
      ConvertedLength(rs);
    }
  }

  lemma ConvertedLength(rs: seq<Record>)
    ensures |ConvertedAll(rs)| == |rs|
  {
  }
}
