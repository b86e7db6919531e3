/** The reader and the writer of JSON texts: the reader moves an index over the text,
    the writer appends to a buffer. */
module JsonIo {
  import opened Options
  import opened JsonText

  /** What a reading method returns: a value, an exception, or that it came to a float. */
  datatype Outcome<T> = Value(value: T) | Raised | IsFloat {
    predicate IsFailure() {
      !Value?
    }

    function PropagateFailure<U>(): Outcome<U>
      requires !Value?
    {
      if Raised? then Outcome<U>.Raised else Outcome<U>.IsFloat
    }

    function Extract(): T
      requires Value?
    {
      value
    }
  }

  /** The outcome and the text left over are those that were specified. */
  predicate Meets<T(==)>(r: Outcome<T>, rest: string, p: Parsed<T>) {
    match p
    case Ok(v, after) => r == Value(v) && rest == after
    case Bad => r.Raised?
    case Float => r.IsFloat?
  }

  class StringGenerator {
    const text: string
    var index: int

    ghost predicate Valid()
      reads this
    {
      -1 <= index
    }

    /** The characters not taken yet. */
    ghost function Rest(): string
      requires Valid()
      reads this
    {
      if index + 1 <= |text| then text[index + 1..] else []
    }

    constructor (text: string)
      ensures Valid() && this.text == text && Rest() == text
    {
      this.text := text;
      index := -1;
    }

    method Peek() returns (c: Option<char>)
      requires Valid()
      ensures c == if Rest() == [] then None else Some(Rest()[0])
    {
      var i := index + 1;
      if i < |text| {
        c := Some(text[i]);
      } else {
        c := None;
      }
    }

    /** No character means that the iteration stops. */
    method Next() returns (c: Option<char>)
      requires Valid()
      modifies this
      ensures Valid()
      ensures c == if old(Rest()) == [] then None else Some(old(Rest())[0])
      ensures Rest() == if old(Rest()) == [] then [] else old(Rest())[1..]
      ensures c.Some? ==> 0 <= index < |text| && text[index] == c.value
    {
      index := index + 1;
      if index < |text| {
        c := Some(text[index]);
      } else {
        c := None;
      }
    }

    /** Giving back the character taken last. */
    method PutBack(c: char)
      requires Valid() && 0 <= index < |text| && c == text[index]
      modifies this
      ensures Valid() && Rest() == [c] + old(Rest())
    {
      index := index - 1;
    }
  }

  function Prepend(chars: string, p: Parsed<string>): Parsed<string> {
    match p
    case Ok(more, rest) => Ok(chars + more, rest)
    case _ => p
  }

  lemma PrependNone(p: Parsed<string>)
    ensures Prepend("", p) == p
  {
    assert p.Ok? ==> "" + p.value == p.value;
  }

  lemma PrependOne(chars: string, c: char, p: Parsed<string>)
    ensures Prepend(chars + [c], p) == Prepend(chars, Prepend([c], p))
  {
    assert p.Ok? ==> chars + [c] + p.value == chars + ([c] + p.value);
  }

  /** After the first character of a number: what was spelled so far, and what is left. */
  ghost predicate Taken(start: string, spelled: string, rest: string) {
    start != [] && start[1..] == spelled + rest && Spelling(start[1..]) == spelled + Spelling(rest)
  }

  lemma NoneTaken(start: string)
    requires start != []
    ensures Taken(start, [], start[1..])
  {
    hide Spelling;
  }

  lemma OneTaken(start: string, spelled: string, rest: string)
    requires Taken(start, spelled, rest) && rest != [] && (IsDigit(rest[0]) || rest[0] == '.')
    ensures Taken(start, spelled + [rest[0]], rest[1..])
  {
    assert Spelling(rest) == [rest[0]] + Spelling(rest[1..]);
    hide Spelling;
    assert spelled + [rest[0]] + rest[1..] == spelled + rest;
    assert spelled + [rest[0]] + Spelling(rest[1..]) == spelled + ([rest[0]] + Spelling(rest[1..]));
  }

  /** Where the loop over the digits and points stops. */
  lemma AllTaken(start: string, spelled: string, rest: string)
    requires Taken(start, spelled, rest) && (rest != [] ==> !IsDigit(rest[0]) && rest[0] != '.')
    ensures spelled == Spelling(start[1..]) && rest == start[1 + |spelled|..]
  {
    assert Spelling(rest) == [] && spelled + [] == spelled;
    hide Spelling;
    assert start[1..][|spelled|..] == rest;
    assert start[1 + |spelled|..] == start[1..][|spelled|..];
  }

  lemma {:induction false} PointsOne(s: string, c: char)
    ensures Points(s + [c]) == Points(s) + if c == '.' then 1 else 0
    decreases |s|
  {
    if s == [] {
      assert s + [c] == [c] && [c][1..] == [];
    } else {
      assert (s + [c])[1..] == s[1..] + [c];
      PointsOne(s[1..], c);
    }
  }

  /** The digits at the front go up to the first point. */
  lemma {:induction false} UpToPoint(s: string)
    ensures Points(Spelling(s)) == 0 ==> Digits(s) == Spelling(s)
    ensures Points(Spelling(s)) > 0 ==> StartsWith(s[|Digits(s)|..], '.')
    decreases |s|
  {
    if s != [] {
      UpToPoint(s[1..]);
    }
  }

  lemma FloatRead(start: string, spelled: string, rest: string)
    requires Taken(start, spelled, rest) && (rest != [] ==> !IsDigit(rest[0]) && rest[0] != '.')
    requires start[0] == '-' || IsDigit(start[0])
    requires Points(spelled) > 0 || (StartsWith(rest, 'e') && ExponentConverts(rest[1..]))
    requires StartsWith(rest, 'e') ==> ExponentConverts(rest[1..])
    ensures ParseNumber(start) == if Converts([start[0]] + spelled) then Float else Bad
  {
    hide NaturalValue, Converts, ExponentConverts;
    AllTaken(start, spelled, rest);
    UpToPoint(start[1..]);
    hide Digits, Spelling, Points, Taken;
    var digits := Digits(start[1..]);
    assert start[1 + |digits|..] == start[1..][|digits|..];
  }

  lemma IntRead(start: string, spelled: string, rest: string)
    requires Taken(start, spelled, rest) && (rest != [] ==> !IsDigit(rest[0]) && rest[0] != '.')
    requires start[0] == '-' || IsDigit(start[0])
    requires Points(spelled) == 0 && !StartsWith(rest, 'e')
    ensures var text := [start[0]] + spelled;
      && (forall i :: 1 <= i < |text| ==> IsDigit(text[i]))
      && ParseNumber(start) == if Converts(text) then Ok(Int(IntValue(text)), rest) else Bad
  {
    hide NaturalValue, ExponentConverts;
    AllTaken(start, spelled, rest);
    UpToPoint(start[1..]);
    hide Digits, Spelling, Points, Taken;
    var text := [start[0]] + spelled;
    assert text[1..] == spelled;
    ConvertsInt(text);
  }

  lemma ConvertsInt(text: string)
    requires text != [] && (text[0] == '-' || IsDigit(text[0])) && Points(text[1..]) == 0
    requires forall i :: 1 <= i < |text| ==> IsDigit(text[i])
    ensures Converts(text) <==> text[0] != '-' || |text| > 1
  {
    if |text| > 1 {
      assert IsDigit(text[1]);
    }
  }

  lemma ExponentFails(start: string, spelled: string, rest: string)
    requires Taken(start, spelled, rest) && StartsWith(rest, 'e') && !ExponentConverts(rest[1..])
    requires start[0] == '-' || IsDigit(start[0])
    ensures ParseNumber(start) == Bad
  {
    AllTaken(start, spelled, rest);
    UpToPoint(start[1..]);
    var digits := Digits(start[1..]);
    assert start[1 + |digits|..] == start[1..][|digits|..];
    hide Digits, Spelling, Points, NaturalValue, Taken;
  }

  lemma NoExponent()
    ensures !ExponentConverts([])
  {
  }

  lemma NoPoints()
    ensures Points([]) == 0
  {
  }

  lemma ExponentRead(start: string, spelled: string, rest: string)
    requires Taken(start, spelled, rest) && (rest != [] ==> !IsDigit(rest[0]) && rest[0] != '.')
    ensures ExponentConverts(start) <==> Converts([start[0]] + spelled)
    ensures Points(spelled) == 0 ==> forall i :: 0 <= i < |spelled| ==> IsDigit(spelled[i])
  {
    AllTaken(start, spelled, rest);
    UpToPoint(start[1..]);
  }

  /** The value of digits that may have a sign or white space before them. */
  function IntValue(text: string): int
    requires text != [] && forall i :: 1 <= i < |text| ==> IsDigit(text[i])
  {
    if text[0] == '-' then 0 - NaturalValue(text[1..])
    else if IsDigit(text[0]) then NaturalValue(text)
    else NaturalValue(text[1..])
  }

  lemma PrependBad(chars: string)
    ensures Prepend(chars, Bad) == Bad
  {
  }

  lemma QuoteMissing()
    ensures ParseChars("") == Bad
    ensures forall chars :: Prepend(chars, Bad) == Bad
  {
  }

  lemma QuoteFound(chars: string, text: string)
    requires StartsWith(text, '"')
    ensures Prepend(chars, ParseChars(text)) == Ok(chars, text[1..])
  {
    assert chars + [] == chars;
  }

  /** One character of a string literal. */
  lemma CharRead(text: string)
    requires text != [] && text[0] != '"'
    ensures var c := if text[0] == '\\' then ParseEscape(text[1..]) else Ok(text[0], text[1..]);
      ParseChars(text) == if c.Ok? then Prepend([c.value], ParseChars(c.rest)) else Bad
  {
    hide ParseEscape;
  }

  class JsonReader {
    var generator: StringGenerator

    constructor ()
      ensures fresh(generator)
    {
      generator := new StringGenerator("");
    }

    /** Reads the value at the front of s; what follows it is not looked at. */
    method Read(s: string) returns (r: Outcome<Json>)
      modifies this
      ensures fresh(generator) && generator.Valid() && Meets(r, generator.Rest(), Parse(s))
    {
      generator := new StringGenerator(s);
      r := ReadValue();
    }

    method ReadValue() returns (r: Outcome<Json>)
      requires generator.Valid()
      modifies generator
      ensures generator.Valid() && Meets(r, generator.Rest(), Parse(old(generator.Rest())))
      decreases |generator.Rest()|, 2
    {
      var eaten := EatWhitespace();
      if eaten.Raised? {
        return Raised;
      }
      var peek := generator.Peek();
      if peek == None {
        r := Raised;
      } else if peek.value == '{' {
        r := ReadObject();
      } else if peek.value == '[' {
        r := ReadArray();
      } else if peek.value == '"' {
        var chars := ReadString();
        r := if chars.Value? then Value(Str(chars.value)) else Raised;
      } else if peek.value == '-' || IsDigit(peek.value) {
        r := ReadNumber(true);
      } else if peek.value == 't' {
        r := ReadWord("true", Bool(true));
      } else if peek.value == 'f' {
        r := ReadWord("false", Bool(false));
      } else if peek.value == 'n' {
        r := ReadWord("null", Null);
      } else {
        r := Raised;
      }
    }

    /** The letters of true, false or null, one after the other. */
    method ReadWord(word: string, v: Json) returns (r: Outcome<Json>)
      requires generator.Valid()
      modifies generator
      ensures generator.Valid() && Meets(r, generator.Rest(), ParseWord(old(generator.Rest()), word, v))
    {
      hide StringGenerator.Rest, StringGenerator.Valid;
      ghost var start := generator.Rest();
      var i := 0;
      while i < |word|
        invariant generator.Valid()
        invariant i <= |word| && i <= |start| && start[..i] == word[..i] && generator.Rest() == start[i..]
      {
        var c := generator.Next();
        if c != Some(word[i]) {
          assert i < |start| ==> start[i] != word[i];
          return Raised;
        }
        assert start[..i + 1] == start[..i] + [start[i]];
        i := i + 1;
      }
      r := Value(v);
    }

    /** A fraction or an exponent makes it a float, where the model stops. The exponent is
        read by the same method, from whatever character comes first. */
    method ReadNumber(allowExp: bool) returns (r: Outcome<Json>)
      requires generator.Valid()
      requires allowExp ==> generator.Rest() != [] && (generator.Rest()[0] == '-' || IsDigit(generator.Rest()[0]))
      modifies generator
      ensures generator.Valid()
      ensures allowExp ==> Meets(r, generator.Rest(), ParseNumber(old(generator.Rest())))
      ensures !allowExp ==> (r.Raised? <==> !ExponentConverts(old(generator.Rest())))
      decreases allowExp
    {
      hide Digits, NaturalValue, ParseNumber, Taken, Spelling, Points, Converts, ExponentConverts;
      hide StringGenerator.Rest, StringGenerator.Valid;
      ghost var start := generator.Rest();
      var first := generator.Next();
      if first == None {
        NoExponent();
        return Raised;
      }
      var isFloat, result := false, [first.value];
      NoneTaken(start);
      NoPoints();
      assert result[1..] == [];
      var peek := generator.Peek();
      while peek != None && (IsDigit(peek.value) || peek.value == '.' || (allowExp && peek.value == 'e'))
        invariant generator.Valid()
        invariant peek == if generator.Rest() == [] then None else Some(generator.Rest()[0])
        invariant result != [] && result[0] == start[0]
        invariant Taken(start, result[1..], generator.Rest()) && (isFloat <==> Points(result[1..]) > 0)
        decreases |generator.Rest()|
      {
        ghost var rest := generator.Rest();
        isFloat := isFloat || !IsDigit(peek.value);
        var c := generator.Next();
        if c.value == 'e' {
          var exponent := ReadNumber(false);
          if exponent.Raised? {
            ExponentFails(start, result[1..], rest);
            return Raised;
          }
          FloatRead(start, result[1..], rest);
          assert [start[0]] + result[1..] == result;
          return if Converts(result) then IsFloat else Raised;
        }
        OneTaken(start, result[1..], rest);
        PointsOne(result[1..], c.value);
        assert (result + [c.value])[1..] == result[1..] + [c.value];
        result := result + [c.value];
        peek := generator.Peek();
      }
      assert [start[0]] + result[1..] == result;
      if allowExp && isFloat {
        FloatRead(start, result[1..], generator.Rest());
      } else if allowExp {
        IntRead(start, result[1..], generator.Rest());
      } else {
        ExponentRead(start, result[1..], generator.Rest());
      }
      if !Converts(result) {
        r := Raised;
      } else if isFloat {
        r := IsFloat;
      } else {
        r := Value(Int(IntValue(result)));
      }
    }

    method ReadString() returns (r: Outcome<string>)
      requires generator.Valid() && StartsWith(generator.Rest(), '"')
      modifies generator
      ensures generator.Valid() && Meets(r, generator.Rest(), ParseChars(old(generator.Rest())[1..]))
    {
      hide ParseChars, ParseEscape, Prepend;
      var result := "";
      var quote := generator.Next();
      ghost var start := generator.Rest();
      PrependNone(ParseChars(start));
      while true
        invariant generator.Valid()
        invariant Prepend(result, ParseChars(generator.Rest())) == ParseChars(start)
        decreases |generator.Rest()|
      {
        ghost var rest := generator.Rest();
        var c := generator.Next();
        if c == None {
          QuoteMissing();
          return Raised;
        }
        if c.value == '"' {
          QuoteFound(result, rest);
          generator.PutBack(c.value);
          break;
        }
        CharRead(rest);
        var ch := c.value;
        if ch == '\\' {
          var escaped := ReadEscape();
          if escaped.Raised? {
            PrependBad(result);
            return Raised;
          }
          ch := escaped.value;
        }
        PrependOne(result, ch, ParseChars(generator.Rest()));
        result := result + [ch];
      }
      quote := generator.Next();
      r := Value(result);
    }

    /** What follows a backslash. */
    method ReadEscape() returns (r: Outcome<char>)
      requires generator.Valid()
      modifies generator
      ensures generator.Valid() && Meets(r, generator.Rest(), ParseEscape(old(generator.Rest())))
    {
      var c := generator.Next();
      if c == None {
        r := Raised;
      } else if c.value in "brnft" {
        r := Value(Unescaped(c.value));
      } else if c.value == 'u' {
        r := ReadHex();
      } else if c.value in "\"/\\" {
        r := Value(c.value);
      } else {
        r := Raised;
      }
    }

    method ReadHex() returns (r: Outcome<char>)
      requires generator.Valid()
      modifies generator
      ensures generator.Valid() && Meets(r, generator.Rest(), ParseHex(old(generator.Rest())))
    {
      hide StringGenerator.Rest, StringGenerator.Valid, HexValue;
      ghost var start := generator.Rest();
      var c4096 := generator.Next();
      var c256 := generator.Next();
      var c16 := generator.Next();
      var c1 := generator.Next();
      assert |start| >= 4 ==> generator.Rest() == start[4..];
      if c4096 == None || c256 == None || c16 == None || c1 == None {
        return Raised;
      }
      if HexValue(c4096.value) < 0 || HexValue(c256.value) < 0 || HexValue(c16.value) < 0 || HexValue(c1.value) < 0 {
        return Raised;
      }
      var n := 4096 * HexValue(c4096.value);
      n := n + 256 * HexValue(c256.value);
      n := n + 16 * HexValue(c16.value);
      n := n + HexValue(c1.value);
      r := if n < 128 then Value(n as char) else Raised;
    }

    method ReadComment() returns (r: Outcome<()>)
      requires generator.Valid() && StartsWith(generator.Rest(), '/')
      modifies generator
      ensures generator.Valid() && Meets(r, generator.Rest(), SkipComment(old(generator.Rest())))
    {
      var slash := generator.Next();
      var second := generator.Next();
      if second == Some('/') {
        ReadDoubleSolidusComment();
        r := Value(());
      } else if second == Some('*') {
        r := ReadCStyleComment();
      } else {
        r := Raised;
      }
    }

    method ReadCStyleComment() returns (r: Outcome<()>)
      requires generator.Valid()
      modifies generator
      ensures generator.Valid() && Meets(r, generator.Rest(), SkipBlock(old(generator.Rest())))
    {
      ghost var start := generator.Rest();
      var done := false;
      while !done
        invariant generator.Valid()
        invariant !done ==> SkipBlock(generator.Rest()) == SkipBlock(start)
        invariant done ==> generator.Rest() != [] && SkipBlock(start) == Ok((), generator.Rest()[1..])
        decreases !done, |generator.Rest()|
      {
        var ch := generator.Next();
        if ch == None {
          return Raised;
        }
        var peek := generator.Peek();
        done := ch.value == '*' && peek == Some('/');
        if !done && ch.value == '/' && peek == Some('*') {
          return Raised;
        }
      }
      var slash := generator.Next();
      r := Value(());
    }

    method ReadDoubleSolidusComment()
      requires generator.Valid()
      modifies generator
      ensures generator.Valid() && generator.Rest() == SkipLine(old(generator.Rest()))
    {
      ghost var start := generator.Rest();
      var ch := generator.Next();
      while ch != None && ch.value != '\r' && ch.value != '\n'
        invariant generator.Valid()
        invariant SkipLine(start)
          == if ch == None || ch.value == '\r' || ch.value == '\n' then generator.Rest() else SkipLine(generator.Rest())
        decreases ch != None, |generator.Rest()|
      {
        ch := generator.Next();
      }
    }

    method EatWhitespace() returns (r: Outcome<()>)
      requires generator.Valid()
      modifies generator
      ensures generator.Valid() && Meets(r, generator.Rest(), JsonText.EatWhitespace(old(generator.Rest())))
    {
      hide SkipComment;
      ghost var start := generator.Rest();
      var p := generator.Peek();
      while p != None && (IsSpace(p.value) || p.value == '/')
        invariant generator.Valid()
        invariant p == if generator.Rest() == [] then None else Some(generator.Rest()[0])
        invariant JsonText.EatWhitespace(generator.Rest()) == JsonText.EatWhitespace(start)
        decreases |generator.Rest()|
      {
        if p.value == '/' {
          var read := ReadComment();
          if read.Raised? {
            return Raised;
          }
        } else {
          var space := generator.Next();
        }
        p := generator.Peek();
      }
      r := Value(());
    }

    method ReadArray() returns (r: Outcome<Json>)
      requires generator.Valid() && StartsWith(generator.Rest(), '[')
      modifies generator
      ensures generator.Valid() && Meets(r, generator.Rest(), ParseArray(old(generator.Rest())[1..]))
      decreases |generator.Rest()|, 1
    {
      hide Parse, JsonText.EatWhitespace, StringGenerator.Rest, StringGenerator.Valid;
      var result: seq<Json> := [];
      var open := generator.Next();
      ghost var start := generator.Rest();
      var peek := generator.Peek();
      var done := peek == Some(']');
      while !done
        invariant generator.Valid() && |generator.Rest()| <= |start|
        invariant !done ==> ParseItems(generator.Rest(), result) == ParseArray(start)
        invariant done ==> StartsWith(generator.Rest(), ']')
        invariant done ==> ParseArray(start) == Ok(List(result), generator.Rest()[1..])
        decreases !done, |generator.Rest()|
      {
        var item :- ReadValue();
        result := result + [item];
        var _ :- EatWhitespace();
        peek := generator.Peek();
        done := peek == Some(']');
        if !done {
          var ch := generator.Next();
          if ch != Some(',') {
            return Raised;
          }
        }
      }
      var close := generator.Next();
      r := Value(List(result));
    }

    /** A key, a colon and a value. */
    method ReadEntry() returns (r: Outcome<Entry>)
      requires generator.Valid()
      modifies generator
      ensures generator.Valid() && Meets(r, generator.Rest(), ParseEntry(old(generator.Rest())))
      decreases |generator.Rest()|, 3
    {
      hide Parse, JsonText.EatWhitespace, StringGenerator.Rest, StringGenerator.Valid;
      var key :- ReadValue();
      if !key.Str? {
        return Raised;
      }
      var _ :- EatWhitespace();
      var ch := generator.Next();
      if ch != Some(':') {
        return Raised;
      }
      var _ :- EatWhitespace();
      var val :- ReadValue();
      var _ :- EatWhitespace();
      r := Value(Entry(key.s, val));
    }

    method ReadObject() returns (r: Outcome<Json>)
      requires generator.Valid() && StartsWith(generator.Rest(), '{')
      modifies generator
      ensures generator.Valid() && Meets(r, generator.Rest(), ParseObject(old(generator.Rest())[1..]))
      decreases |generator.Rest()|, 1
    {
      hide ParseEntry, Put, StringGenerator.Rest, StringGenerator.Valid;
      var result: seq<Entry> := [];
      var open := generator.Next();
      ghost var start := generator.Rest();
      var peek := generator.Peek();
      var done := peek == Some('}');
      while !done
        invariant generator.Valid() && |generator.Rest()| <= |start|
        invariant !done ==> ParseEntries(generator.Rest(), result) == ParseObject(start)
        invariant done ==> StartsWith(generator.Rest(), '}')
        invariant done ==> ParseObject(start) == Ok(Dict(result), generator.Rest()[1..])
        decreases !done, |generator.Rest()|
      {
        var entry :- ReadEntry();
        result := Put(result, entry.key, entry.value);
        peek := generator.Peek();
        done := peek == Some('}');
        if !done {
          var ch := generator.Next();
          if ch != Some(',') {
            return Raised;
          }
        }
      }
      var close := generator.Next();
      r := Value(Dict(result));
    }
  }

  lemma ItemWritten(before: string, after: string, items: seq<Json>, i: nat, slash: bool)
    requires i < |items|
    requires after == before + Print(items[i], slash) + (if i + 1 < |items| then "," else "")
    ensures after + PrintItems(items[i + 1..], slash) == before + PrintItems(items[i..], slash)
  {
    hide Print;
    assert items[i..][1..] == items[i + 1..];
  }

  lemma EntryWritten(before: string, after: string, entries: seq<Entry>, i: nat, slash: bool)
    requires i < |entries|
    requires after == before + Quoted(entries[i].key, slash) + ":" + Print(entries[i].value, slash)
      + (if i + 1 < |entries| then "," else "")
    ensures after + PrintEntries(entries[i + 1..], slash) == before + PrintEntries(entries[i..], slash)
  {
    hide Print, Quoted;
    assert entries[i..][1..] == entries[i + 1..];
  }

  /** Brackets around what is between them. */
  lemma Bracketed(v: Json, slash: bool)
    ensures v.List? ==> Print(v, slash) == "[" + PrintItems(v.items, slash) + "]"
    ensures v.Dict? ==> Print(v, slash) == "{" + PrintEntries(v.entries, slash) + "}"
    ensures PrintItems([], slash) == "" && PrintEntries([], slash) == ""
  {
  }

  class JsonWriter {
    var escapedForwardSlash: bool
    var results: string

    constructor () {
      escapedForwardSlash := false;
      results := "";
    }

    method Append(s: string)
      modifies this`results
      ensures results == old(results) + s
    {
      results := results + s;
    }

    method Write(v: Json, slash: bool) returns (s: string)
      modifies this
      ensures s == Print(v, slash)
    {
      escapedForwardSlash := slash;
      results := "";
      WriteValue(v);
      s := results;
    }

    method WriteValue(v: Json)
      modifies this`results
      ensures results == old(results) + Print(v, escapedForwardSlash)
      decreases v
    {
      match v
      case Dict(entries) => WriteObject(v);
      case List(items) => WriteArray(v);
      case Str(s) => WriteString(s);
      case Int(n) => Append(Number(n));
      case Bool(b) => Append(if b then "true" else "false");
      case Null => Append("null");
    }

    method WriteObject(v: Json)
      requires v.Dict?
      modifies this`results
      ensures results == old(results) + Print(v, escapedForwardSlash)
      decreases v, 0
    {
      Bracketed(v, escapedForwardSlash);
      hide Print, PrintEntries, Quoted;
      var entries := v.entries;
      var n := |entries|;
      Append("{");
      assert entries[0..] == entries;
      for i := 0 to |entries|
        invariant n == |entries| - i
        invariant results + PrintEntries(entries[i..], escapedForwardSlash)
          == old(results) + "{" + PrintEntries(entries, escapedForwardSlash)
      {
        ghost var before := results;
        WriteString(entries[i].key);
        Append(":");
        WriteValue(entries[i].value);
        n := n - 1;
        if n > 0 {
          Append(",");
        }
        EntryWritten(before, results, entries, i, escapedForwardSlash);
      }
      assert entries[|entries|..] == [] && results + "" == results;
      Append("}");
    }

    method WriteArray(v: Json)
      requires v.List?
      modifies this`results
      ensures results == old(results) + Print(v, escapedForwardSlash)
      decreases v, 0
    {
      Bracketed(v, escapedForwardSlash);
      hide Print, PrintItems;
      var items := v.items;
      var n := |items|;
      Append("[");
      assert items[0..] == items;
      for i := 0 to |items|
        invariant n == |items| - i
        invariant results + PrintItems(items[i..], escapedForwardSlash)
          == old(results) + "[" + PrintItems(items, escapedForwardSlash)
      {
        ghost var before := results;
        WriteValue(items[i]);
        n := n - 1;
        if n > 0 {
          Append(",");
        }
        ItemWritten(before, results, items, i, escapedForwardSlash);
      }
      assert items[|items|..] == [] && results + "" == results;
      Append("]");
    }

    /** The replacements, one after the other. */
    method WriteString(s: string)
      modifies this`results
      ensures results == old(results) + Quoted(s, escapedForwardSlash)
    {
      Append("\"");
      var obj := Replace(s, '\\', "\\\\");
      if escapedForwardSlash {
        obj := Replace(obj, '/', "\\/");
      }
      obj := Replace(obj, '"', "\\\"");
      obj := Replace(obj, 8 as char, "\\b");
      obj := Replace(obj, 12 as char, "\\f");
      obj := Replace(obj, '\n', "\\n");
      obj := Replace(obj, '\r', "\\r");
      obj := Replace(obj, '\t', "\\t");
      Append(obj);
      Append("\"");
    }
  }
}
