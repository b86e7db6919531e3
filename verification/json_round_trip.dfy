/** What is printed reads back as the same value, and reading takes exactly the
    characters that were printed. */
module JsonRoundTrip {
  import opened JsonText

  // Escaping, one character at a time.

  function EscapedChar(c: char, slash: bool): string {
    if c == '\\' then "\\\\"
    else if c == '/' && slash then "\\/"
    else if c == '"' then "\\\""
    else if c == 8 as char then "\\b"
    else if c == 12 as char then "\\f"
    else if c == '\n' then "\\n"
    else if c == '\r' then "\\r"
    else if c == '\t' then "\\t"
    else [c]
  }

  function EscapedChars(s: string, slash: bool): string {
    if s == [] then [] else EscapedChar(s[0], slash) + EscapedChars(s[1..], slash)
  }

  lemma {:induction false} ReplaceJoin(a: string, b: string, c: char, with: string)
    ensures Replace(a + b, c, with) == Replace(a, c, with) + Replace(b, c, with)
  {
    if a == [] {
      assert a + b == b;
    } else {
      assert (a + b)[1..] == a[1..] + b;
      ReplaceJoin(a[1..], b, c, with);
    }
  }

  lemma EscapedJoin(a: string, b: string, slash: bool)
    ensures Escaped(a + b, slash) == Escaped(a, slash) + Escaped(b, slash)
  {
    hide Replace;
    ReplaceJoin(a, b, '\\', "\\\\");
    var a1, b1 := Replace(a, '\\', "\\\\"), Replace(b, '\\', "\\\\");
    ReplaceJoin(a1, b1, '/', "\\/");
    var a2 := if slash then Replace(a1, '/', "\\/") else a1;
    var b2 := if slash then Replace(b1, '/', "\\/") else b1;
    ReplaceJoin(a2, b2, '"', "\\\"");
    var a3, b3 := Replace(a2, '"', "\\\""), Replace(b2, '"', "\\\"");
    ReplaceJoin(a3, b3, 8 as char, "\\b");
    var a4, b4 := Replace(a3, 8 as char, "\\b"), Replace(b3, 8 as char, "\\b");
    ReplaceJoin(a4, b4, 12 as char, "\\f");
    var a5, b5 := Replace(a4, 12 as char, "\\f"), Replace(b4, 12 as char, "\\f");
    ReplaceJoin(a5, b5, '\n', "\\n");
    var a6, b6 := Replace(a5, '\n', "\\n"), Replace(b5, '\n', "\\n");
    ReplaceJoin(a6, b6, '\r', "\\r");
    var a7, b7 := Replace(a6, '\r', "\\r"), Replace(b6, '\r', "\\r");
    ReplaceJoin(a7, b7, '\t', "\\t");
  }

  lemma ReplaceOne(x: char, c: char, with: string)
    ensures Replace([x], c, with) == if x == c then with else [x]
  {
    assert [x][1..] == [];
    assert with + [] == with;
  }

  lemma ReplaceTwo(x: char, y: char, c: char, with: string)
    requires x != c && y != c
    ensures Replace([x, y], c, with) == [x, y]
  {
    assert [x, y][1..] == [y];
    ReplaceOne(y, c, with);
  }

  /** A later replacement leaves alone what an earlier one put in. */
  lemma EscapedOne(c: char, slash: bool)
    ensures Escaped([c], slash) == EscapedChar(c, slash)
  {
    var r := EscapedChar(c, slash);
    ReplaceOne(c, '\\', "\\\\");
    ReplaceOne(c, '/', "\\/");
    ReplaceOne(c, '"', "\\\"");
    ReplaceOne(c, 8 as char, "\\b");
    ReplaceOne(c, 12 as char, "\\f");
    ReplaceOne(c, '\n', "\\n");
    ReplaceOne(c, '\r', "\\r");
    ReplaceOne(c, '\t', "\\t");
    if |r| == 2 {
      assert r == [r[0], r[1]];
      if r[1] != '/' { ReplaceTwo(r[0], r[1], '/', "\\/"); }
      if r[1] != '"' { ReplaceTwo(r[0], r[1], '"', "\\\""); }
      ReplaceTwo(r[0], r[1], 8 as char, "\\b");
      ReplaceTwo(r[0], r[1], 12 as char, "\\f");
      ReplaceTwo(r[0], r[1], '\n', "\\n");
      ReplaceTwo(r[0], r[1], '\r', "\\r");
      ReplaceTwo(r[0], r[1], '\t', "\\t");
    }
    hide Replace;
  }

  /** The chain of replacements over the whole string is one substitution, character
      by character. */
  lemma {:induction false} EscapedIs(s: string, slash: bool)
    ensures Escaped(s, slash) == EscapedChars(s, slash)
  {
    if s != [] {
      assert s == [s[0]] + s[1..];
      EscapedJoin([s[0]], s[1..], slash);
      EscapedOne(s[0], slash);
      EscapedIs(s[1..], slash);
    }
  }

  /** Reading a literal that starts with c, whether written as itself or escaped. */
  lemma CharBack(c: char, slash: bool, more: string)
    ensures ParseChars(EscapedChar(c, slash) + more)
      == match ParseChars(more)
         case Ok(chars, rest) => Ok([c] + chars, rest)
         case _ => Bad
  {
    var e := EscapedChar(c, slash);
    var text := e + more;
    if |e| == 1 {
      assert text[0] == c && text[1..] == more;
    } else {
      assert text[0] == '\\' && text[1..][0] == e[1] && text[1..][1..] == more;
      assert e[1] in "brnft\"/\\";
      assert Unescaped(e[1]) == c;
    }
  }

  lemma QuoteEnds(rest: string)
    ensures ParseChars("\"" + rest) == Ok([], rest)
  {
    assert ("\"" + rest)[1..] == rest;
  }

  lemma {:induction false} CharsBack(s: string, slash: bool, rest: string)
    ensures ParseChars(EscapedChars(s, slash) + ("\"" + rest)) == Ok(s, rest)
  {
    hide ParseChars, EscapedChar;
    var tail := "\"" + rest;
    QuoteEnds(rest);
    if s == [] {
      assert EscapedChars(s, slash) + tail == tail;
    } else {
      CharsBack(s[1..], slash, rest);
      CharBack(s[0], slash, EscapedChars(s[1..], slash) + tail);
      assert EscapedChars(s, slash) + tail == EscapedChar(s[0], slash) + (EscapedChars(s[1..], slash) + tail);
      assert s == [s[0]] + s[1..];
    }
  }

  // Numbers.

  lemma {:induction false} NaturalDigits(n: nat)
    ensures forall i :: 0 <= i < |Natural(n)| ==> IsDigit(Natural(n)[i])
    ensures NaturalValue(Natural(n)) == n
  {
    if n >= 10 {
      NaturalDigits(n / 10);
      assert Natural(n)[..|Natural(n)| - 1] == Natural(n / 10);
    } else {
      assert Natural(n)[..0] == [];
    }
  }

  lemma {:induction false} DigitsBack(s: string, rest: string)
    requires forall i :: 0 <= i < |s| ==> IsDigit(s[i])
    ensures Digits(s + rest) == s + Digits(rest)
  {
    if s == [] {
      assert s + rest == rest;
    } else {
      assert (s + rest)[1..] == s[1..] + rest;
      DigitsBack(s[1..], rest);
    }
  }

  /** What may follow a number for it to end there. */
  predicate EndsNumber(rest: string) {
    rest == [] || !(IsDigit(rest[0]) || rest[0] == '.' || rest[0] == 'e')
  }

  lemma NumberStart(n: int, rest: string)
    ensures var s := Number(n) + rest; s != [] && (s[0] == '-' || IsDigit(s[0]))
  {
    NaturalDigits(if n < 0 then -n else n);
    assert n >= 0 ==> IsDigit(Natural(n)[0]);
  }

  /** The digits after the first character of a printed number. */
  function Tail(n: int): string {
    if n < 0 then Natural(-n) else Natural(n)[1..]
  }

  lemma NumberSplit(n: int, rest: string)
    ensures (Number(n) + rest)[1..] == Tail(n) + rest
    ensures |Number(n)| == 1 + |Tail(n)|
    ensures forall i :: 0 <= i < |Tail(n)| ==> IsDigit(Tail(n)[i])
  {
    NaturalDigits(if n < 0 then -n else n);
    hide Natural, NaturalValue;
  }

  lemma NumberDigits(n: int, rest: string)
    ensures (Number(n) + rest)[1..] == Tail(n) + rest
    ensures Digits((Number(n) + rest)[1..]) == Tail(n) + Digits(rest)
  {
    NumberSplit(n, rest);
    hide Number, Tail, Digits;
    DigitsBack(Tail(n), rest);
  }

  lemma NumberBack(n: int, rest: string)
    requires EndsNumber(rest)
    requires var s := Number(n) + rest; s[0] == '-' || IsDigit(s[0])
    ensures ParseNumber(Number(n) + rest) == Ok(Int(n), rest)
  {
    NumberDigits(n, rest);
    NumberSplit(n, rest);
    NaturalDigits(if n < 0 then -n else n);
    assert Digits(rest) == [] && Tail(n) + [] == Tail(n);
    hide Natural, NaturalValue, Digits;
    var s := Number(n) + rest;
    assert s[1 + |Tail(n)|..] == rest;
    if n >= 0 {
      assert [s[0]] + Tail(n) == Natural(n);
    }
  }

  /** A printed number reads back, and no more than it, exactly when what follows
      cannot belong to it. */
  lemma NumberExact(n: int, rest: string)
    ensures var s := Number(n) + rest; s != [] && (s[0] == '-' || IsDigit(s[0]))
    ensures ParseNumber(Number(n) + rest) == Ok(Int(n), rest) <==> EndsNumber(rest)
  {
    NumberStart(n, rest);
    if EndsNumber(rest) {
      NumberBack(n, rest);
    } else {
      NumberDigits(n, rest);
      NumberSplit(n, rest);
      assert IsDigit(rest[0]) ==> |Digits(rest)| > 0;
      assert !IsDigit(rest[0]) ==> |Digits(rest)| == 0;
      hide Digits, Number, Tail;
      var s, digits := Number(n) + rest, Tail(n) + Digits(rest);
      assert s[1 + |digits|..] == rest[|Digits(rest)|..];
    }
  }

  // Values.

  lemma EatNothing(s: string)
    requires s != [] && !IsSpace(s[0]) && s[0] != '/'
    ensures EatWhitespace(s) == Ok((), s)
  {
  }

  // What is read is chosen by the first character.

  lemma ReadsString(s: string)
    requires StartsWith(s, '"')
    ensures Parse(s) == match ParseChars(s[1..])
                        case Ok(chars, rest) => Ok(Str(chars), rest)
                        case _ => Bad
  {
    hide ParseChars;
    EatNothing(s);
  }

  lemma ReadsNumber(s: string)
    requires s != [] && (s[0] == '-' || IsDigit(s[0]))
    ensures Parse(s) == ParseNumber(s)
  {
    hide ParseNumber;
    EatNothing(s);
  }

  lemma ReadsWord(s: string)
    requires s != []
    ensures s[0] == 't' ==> Parse(s) == ParseWord(s, "true", Bool(true))
    ensures s[0] == 'f' ==> Parse(s) == ParseWord(s, "false", Bool(false))
    ensures s[0] == 'n' ==> Parse(s) == ParseWord(s, "null", Null)
  {
    hide ParseWord;
    if s[0] in "tfn" {
      EatNothing(s);
    }
  }

  lemma ReadsArray(s: string)
    requires StartsWith(s, '[')
    ensures Parse(s) == ParseArray(s[1..])
  {
    hide ParseArray;
    EatNothing(s);
  }

  lemma ReadsObject(s: string)
    requires StartsWith(s, '{')
    ensures Parse(s) == ParseObject(s[1..])
  {
    hide ParseObject;
    EatNothing(s);
  }

  /** A printed value starts with a character that says what it is. */
  lemma FirstChar(v: Json, slash: bool, rest: string)
    ensures var s := Print(v, slash) + rest;
      s != [] && !IsSpace(s[0]) && s[0] != '/' && s[0] != ']' && s[0] != '}'
  {
    if v.Int? {
      NumberStart(v.n, rest);
    }
  }

  lemma QuotedBack(s: string, slash: bool, rest: string)
    ensures Parse(Quoted(s, slash) + rest) == Ok(Str(s), rest)
  {
    hide Escaped, EscapedChars, ParseChars, Parse;
    var text := Quoted(s, slash) + rest;
    EscapedIs(s, slash);
    assert text[1..] == EscapedChars(s, slash) + ("\"" + rest);
    CharsBack(s, slash, rest);
    ReadsString(text);
  }

  lemma WordBack(word: string, v: Json, rest: string)
    requires word != []
    ensures ParseWord(word + rest, word, v) == Ok(v, rest)
  {
    assert (word + rest)[..|word|] == word;
    assert (word + rest)[|word|..] == rest;
  }

  /** A number fits in front of what cannot go on with it, any other value in front of
      anything. */
  predicate Fits(v: Json, rest: string) {
    v.Int? ==> EndsNumber(rest)
  }

  lemma ScalarBack(v: Json, slash: bool, rest: string)
    requires Fits(v, rest) && !v.List? && !v.Dict?
    ensures Parse(Print(v, slash) + rest) == Ok(v, rest)
  {
    hide Parse, ParseNumber, ParseWord, Quoted, Number;
    var text := Print(v, slash) + rest;
    match v
    case Null =>
      WordBack("null", v, rest);
      assert text[0] == 'n';
      ReadsWord(text);
    case Bool(b) =>
      WordBack(if b then "true" else "false", v, rest);
      assert text[0] == if b then 't' else 'f';
      ReadsWord(text);
    case Int(n) =>
      NumberExact(n, rest);
      ReadsNumber(text);
    case Str(s) =>
      QuotedBack(s, slash, rest);
  }

  /** The text of a list's items, up to and after the first. */
  lemma ItemsText(items: seq<Json>, slash: bool, rest: string, after: string)
    requires items != []
    requires after == if |items| > 1 then "," + (PrintItems(items[1..], slash) + ("]" + rest)) else "]" + rest
    ensures PrintItems(items, slash) + ("]" + rest) == Print(items[0], slash) + after
    ensures !StartsWith(PrintItems(items, slash) + ("]" + rest), ']')
  {
    FirstChar(items[0], slash, after);
    hide Print;
  }

  lemma ItemsEmpty(slash: bool, rest: string)
    ensures PrintItems([], slash) + ("]" + rest) == "]" + rest
  {
  }

  /** Reading one item. */
  lemma ItemStep(text: string, v: Json, after: string, done: seq<Json>)
    requires Parse(text) == Ok(v, after)
    requires after != [] && (after[0] == ',' || after[0] == ']')
    ensures ParseItems(text, done)
      == if after[0] == ']' then Ok(List(done + [v]), after[1..]) else ParseItems(after[1..], done + [v])
  {
    EatNothing(after);
    hide Parse, EatWhitespace;
  }

  /** The items from the k-th on, read back in front of the closing bracket. */
  lemma {:induction false} ItemsBack(v: Json, k: nat, slash: bool, rest: string)
    requires IsValue(v) && v.List? && k < |v.items|
    ensures ParseItems(PrintItems(v.items[k..], slash) + ("]" + rest), v.items[..k]) == Ok(v, rest)
    decreases v, |v.items| - k
  {
    hide Parse, ParseItems, Print, PrintItems;
    var more := PrintItems(v.items[k + 1..], slash) + ("]" + rest);
    var after := if k + 1 < |v.items| then "," + more else "]" + rest;
    assert v.items[..k] + [v.items[k]] == v.items[..k + 1];
    assert v.items[k..][1..] == v.items[k + 1..];
    ItemsText(v.items[k..], slash, rest, after);
    PrintParse(v.items[k], slash, after);
    ItemStep(Print(v.items[k], slash) + after, v.items[k], after, v.items[..k]);
    if k + 1 < |v.items| {
      ItemsBack(v, k + 1, slash, rest);
      assert after[1..] == more;
    } else {
      assert v.items[..k + 1] == v.items;
      assert after[1..] == rest;
    }
  }

  lemma ListBack(v: Json, slash: bool, rest: string)
    requires IsValue(v) && v.List?
    ensures Parse(Print(v, slash) + rest) == Ok(v, rest)
    decreases v, |v.items| + 1
  {
    hide Parse, PrintItems, ParseItems, IsValue;
    var text := Print(v, slash) + rest;
    ReadsArray(text);
    assert text[1..] == PrintItems(v.items, slash) + ("]" + rest);
    if v.items == [] {
      ItemsEmpty(slash, rest);
      assert text[1..][1..] == rest;
    } else {
      assert v.items[0..] == v.items && v.items[..0] == [];
      var more := PrintItems(v.items[1..], slash) + ("]" + rest);
      ItemsText(v.items, slash, rest, if |v.items| > 1 then "," + more else "]" + rest);
      ItemsBack(v, 0, slash, rest);
    }
  }

  lemma {:induction false} PutNew(entries: seq<Entry>, key: string, v: Json)
    requires forall i :: 0 <= i < |entries| ==> entries[i].key != key
    ensures Put(entries, key, v) == entries + [Entry(key, v)]
  {
    if entries != [] {
      PutNew(entries[1..], key, v);
      assert entries == [entries[0]] + entries[1..];
    }
  }

  /** The text of a dictionary's entries, up to and after the first. */
  lemma EntriesText(entries: seq<Entry>, slash: bool, rest: string, after: string)
    requires entries != []
    requires after ==
      if |entries| > 1 then "," + (PrintEntries(entries[1..], slash) + ("}" + rest)) else "}" + rest
    ensures PrintEntries(entries, slash) + ("}" + rest)
      == Quoted(entries[0].key, slash) + (":" + (Print(entries[0].value, slash) + after))
    ensures !StartsWith(PrintEntries(entries, slash) + ("}" + rest), '}')
  {
    EntriesStart(entries, slash, rest);
    hide Quoted, Print, StartsWith;
    var k, v := Quoted(entries[0].key, slash), Print(entries[0].value, slash);
    var more := if |entries| > 1 then "," + PrintEntries(entries[1..], slash) else "";
    assert after == more + ("}" + rest);
    Join(v, more, "}" + rest);
    Join(":", v + more, "}" + rest);
    Join(k, ":" + (v + more), "}" + rest);
  }

  lemma Join(a: string, b: string, c: string)
    ensures (a + b) + c == a + (b + c)
  {
  }

  lemma EntriesStart(entries: seq<Entry>, slash: bool, rest: string)
    requires entries != []
    ensures !StartsWith(PrintEntries(entries, slash) + ("}" + rest), '}')
  {
    hide Escaped, Print;
    assert Quoted(entries[0].key, slash)[0] == '"';
  }

  lemma EntriesEmpty(slash: bool, rest: string)
    ensures PrintEntries([], slash) + ("}" + rest) == "}" + rest
  {
  }

  /** Reading one entry. */
  lemma EntryStep(key: string, valueOn: string, v: Json, after: string, slash: bool, done: seq<Entry>)
    requires valueOn != [] && !IsSpace(valueOn[0]) && valueOn[0] != '/'
    requires Parse(valueOn) == Ok(v, after)
    requires after != [] && (after[0] == ',' || after[0] == '}')
    ensures ParseEntries(Quoted(key, slash) + (":" + valueOn), done)
      == if after[0] == '}' then Ok(Dict(Put(done, key, v)), after[1..])
         else ParseEntries(after[1..], Put(done, key, v))
  {
    QuotedBack(key, slash, ":" + valueOn);
    EatNothing(":" + valueOn);
    assert (":" + valueOn)[1..] == valueOn;
    EatNothing(valueOn);
    EatNothing(after);
    hide Parse, EatWhitespace, Put, Quoted;
  }

  /** Reading one entry. */
  lemma EntryBack(e: Entry, slash: bool, after: string, done: seq<Entry>)
    requires IsValue(e.value)
    requires after != [] && (after[0] == ',' || after[0] == '}')
    requires forall i :: 0 <= i < |done| ==> done[i].key != e.key
    ensures ParseEntries(Quoted(e.key, slash) + (":" + (Print(e.value, slash) + after)), done)
      == if after[0] == '}' then Ok(Dict(done + [e]), after[1..]) else ParseEntries(after[1..], done + [e])
    decreases e
  {
    hide Parse, ParseEntries, Print, Quoted, Put;
    assert EndsNumber(after);
    FirstChar(e.value, slash, after);
    PrintParse(e.value, slash, after);
    PutNew(done, e.key, e.value);
    EntryStep(e.key, Print(e.value, slash) + after, e.value, after, slash, done);
  }

  /** The entries from the k-th on, read back in front of the closing brace. */
  lemma {:induction false} EntriesBack(v: Json, k: nat, slash: bool, rest: string)
    requires IsValue(v) && v.Dict? && k < |v.entries|
    ensures ParseEntries(PrintEntries(v.entries[k..], slash) + ("}" + rest), v.entries[..k]) == Ok(v, rest)
    decreases v, |v.entries| - k
  {
    hide Parse, ParseEntries, Print, PrintEntries, Quoted;
    var more := PrintEntries(v.entries[k + 1..], slash) + ("}" + rest);
    var after := if k + 1 < |v.entries| then "," + more else "}" + rest;
    assert v.entries[..k] + [v.entries[k]] == v.entries[..k + 1];
    assert v.entries[k..][1..] == v.entries[k + 1..];
    EntriesText(v.entries[k..], slash, rest, after);
    EntryBack(v.entries[k], slash, after, v.entries[..k]);
    if k + 1 < |v.entries| {
      EntriesBack(v, k + 1, slash, rest);
      assert after[1..] == more;
    } else {
      assert v.entries[..k + 1] == v.entries;
      assert after[1..] == rest;
    }
  }

  lemma DictBack(v: Json, slash: bool, rest: string)
    requires IsValue(v) && v.Dict?
    ensures Parse(Print(v, slash) + rest) == Ok(v, rest)
    decreases v, |v.entries| + 1
  {
    hide Parse, PrintEntries, ParseEntries, IsValue;
    var text := Print(v, slash) + rest;
    ReadsObject(text);
    assert text[1..] == PrintEntries(v.entries, slash) + ("}" + rest);
    if v.entries == [] {
      EntriesEmpty(slash, rest);
      assert text[1..][1..] == rest;
    } else {
      assert v.entries[0..] == v.entries && v.entries[..0] == [];
      var more := PrintEntries(v.entries[1..], slash) + ("}" + rest);
      EntriesText(v.entries, slash, rest, if |v.entries| > 1 then "," + more else "}" + rest);
      EntriesBack(v, 0, slash, rest);
    }
  }

  lemma {:induction false} PrintParse(v: Json, slash: bool, rest: string)
    requires IsValue(v) && Fits(v, rest)
    ensures Parse(Print(v, slash) + rest) == Ok(v, rest)
    decreases v
  {
    hide Parse, Print;
    match v
    case List(items) => ListBack(v, slash, rest);
    case Dict(entries) => DictBack(v, slash, rest);
    case _ => ScalarBack(v, slash, rest);
  }

  /** Inside a larger text, reading what was printed gives the value and stops where
      the printed text ends, exactly when the value fits there. */
  lemma PrintParseExact(v: Json, slash: bool, rest: string)
    requires IsValue(v)
    ensures Parse(Print(v, slash) + rest) == Ok(v, rest) <==> Fits(v, rest)
  {
    hide Parse, ParseNumber, Number, EndsNumber;
    if Fits(v, rest) {
      PrintParse(v, slash, rest);
    } else {
      NumberExact(v.n, rest);
      assert Print(v, slash) == Number(v.n);
      ReadsNumber(Print(v, slash) + rest);
    }
  }

  /** read(write(v)) == v, with forward slashes escaped or not. */
  lemma ReadWrite(v: Json, slash: bool)
    requires IsValue(v)
    ensures Parse(Print(v, slash)) == Ok(v, "")
  {
    assert Print(v, slash) + "" == Print(v, slash);
    PrintParse(v, slash, "");
  }

  /** Different values print differently, even when they escape slashes differently. */
  lemma PrintInjective(v: Json, w: Json, slash: bool, other: bool)
    requires IsValue(v) && IsValue(w) && Print(v, slash) == Print(w, other)
    ensures v == w
  {
    ReadWrite(v, slash);
    ReadWrite(w, other);
  }

  // Empty containers.

  lemma {:induction false} ItemsNotNone(s: string, done: seq<Json>)
    ensures ParseItems(s, done).Ok? ==> ParseItems(s, done).value.List? && ParseItems(s, done).value.items != []
    decreases |s|
  {
    hide Parse, EatWhitespace;
    var v := Parse(s);
    if v.Ok? {
      var space := EatWhitespace(v.rest);
      if space.Ok? && StartsWith(space.rest, ',') {
        ItemsNotNone(space.rest[1..], done + [v.value]);
      }
    }
  }

  lemma {:induction false} EntriesNotNone(s: string, done: seq<Entry>)
    ensures ParseEntries(s, done).Ok? ==> ParseEntries(s, done).value.Dict? && ParseEntries(s, done).value.entries != []
    decreases |s|
  {
    hide ParseEntry;
    var e := ParseEntry(s);
    if e.Ok? && StartsWith(e.rest, ',') {
      EntriesNotNone(e.rest[1..], Put(done, e.value.key, e.value.value));
    }
  }

  /** Only brackets with nothing between them, not even a blank, are the empty list. */
  lemma EmptyListExactly(s: string)
    ensures ParseArray(s).Ok? && ParseArray(s).value == List([]) <==> StartsWith(s, ']')
  {
    ItemsNotNone(s, []);
  }

  lemma EmptyDictExactly(s: string)
    ensures ParseObject(s).Ok? && ParseObject(s).value == Dict([]) <==> StartsWith(s, '}')
  {
    EntriesNotNone(s, []);
  }

  /** With white space or comments and then the closing bracket, reading a container that
      is empty for the reader of the text fails unless there is no such space. */
  lemma BlankContainerExactly(s: string)
    requires EatWhitespace(s).Ok?
    ensures StartsWith(EatWhitespace(s).rest, ']') ==> (ParseArray(s).Ok? <==> StartsWith(s, ']'))
    ensures StartsWith(EatWhitespace(s).rest, '}') ==> (ParseObject(s).Ok? <==> StartsWith(s, '}'))
  {
    if EatWhitespace(s).rest != [] && EatWhitespace(s).rest[0] in "]}" {
      hide EatWhitespace;
      assert Parse(s).Bad?;
      assert ParseEntry(s).Bad?;
      assert ParseItems(s, []).Bad? && ParseEntries(s, []).Bad?;
    }
  }

  lemma BlankContainers()
    ensures Parse("[ ]").Bad? && Parse("{ }").Bad?
    ensures Parse("[]") == Ok(List([]), "") && Parse("{}") == Ok(Dict([]), "")
  {
    assert "[ ]"[1..] == " ]" && "{ }"[1..] == " }" && "[]"[1..] == "]" && "{}"[1..] == "}";
    assert " ]"[1..] == "]" && " }"[1..] == "}" && "]"[1..] == "" && "}"[1..] == "";
    assert EatWhitespace("]") == Ok((), "]") && EatWhitespace("}") == Ok((), "}");
    hide ParseItems, ParseEntries;
    BlankContainerExactly(" ]");
    BlankContainerExactly(" }");
  }
}
