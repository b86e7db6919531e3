/** JSON values, what is printed for them and what is read from a text. */
module JsonText {

  /** Lists and tuples print alike. A dictionary is its items in iteration order. */
  datatype Json =
    | Null
    | Bool(b: bool)
    | Int(n: int)
    | Str(s: string)
    | List(items: seq<Json>)
    | Dict(entries: seq<Entry>)

  datatype Entry = Entry(key: string, value: Json)

  /** The keys of every dictionary differ. */
  predicate IsValue(v: Json) {
    match v
    case List(items) => forall i :: 0 <= i < |items| ==> IsValue(items[i])
    case Dict(entries) =>
      && (forall i :: 0 <= i < |entries| ==> IsValue(entries[i].value))
      && (forall i, j :: 0 <= i < j < |entries| ==> entries[i].key != entries[j].key)
    case _ => true
  }

  // Printing.

  /** Every occurrence of c replaced. */
  function Replace(s: string, c: char, with: string): string {
    if s == [] then [] else (if s[0] == c then with else [s[0]]) + Replace(s[1..], c, with)
  }

  /** The replacements in their order; the backslash comes first, so that those put in
      later are not doubled. */
  function Escaped(s: string, slash: bool): string {
    var s1 := Replace(s, '\\', "\\\\");
    var s2 := if slash then Replace(s1, '/', "\\/") else s1;
    var s3 := Replace(s2, '"', "\\\"");
    var s4 := Replace(s3, 8 as char, "\\b");
    var s5 := Replace(s4, 12 as char, "\\f");
    var s6 := Replace(s5, '\n', "\\n");
    var s7 := Replace(s6, '\r', "\\r");
    Replace(s7, '\t', "\\t")
  }

  function Digit(d: nat): char
    requires d < 10
  {
    '0' + d as char
  }

  function Natural(n: nat): (s: string)
    ensures s != []
  {
    if n < 10 then [Digit(n)] else Natural(n / 10) + [Digit(n % 10)]
  }

  function Number(n: int): string {
    if n < 0 then "-" + Natural(-n) else Natural(n)
  }

  function Quoted(s: string, slash: bool): string {
    "\"" + Escaped(s, slash) + "\""
  }

  function Print(v: Json, slash: bool): string {
    match v
    case Null => "null"
    case Bool(b) => if b then "true" else "false"
    case Int(n) => Number(n)
    case Str(s) => Quoted(s, slash)
    case List(items) => "[" + PrintItems(items, slash) + "]"
    case Dict(entries) => "{" + PrintEntries(entries, slash) + "}"
  }

  function PrintItems(items: seq<Json>, slash: bool): string {
    if items == [] then ""
    else Print(items[0], slash) + (if |items| > 1 then "," + PrintItems(items[1..], slash) else "")
  }

  function PrintEntries(entries: seq<Entry>, slash: bool): string {
    if entries == [] then ""
    else
      Quoted(entries[0].key, slash) + (":" + (Print(entries[0].value, slash)
      + (if |entries| > 1 then "," + PrintEntries(entries[1..], slash) else "")))
  }

  // Reading.

  /** A value and the text after it, an exception, or a float that is well formed: its
      value, and reading on after it, is not modelled. */
  datatype Parsed<T> = Ok(value: T, rest: string) | Bad | Float {
    predicate IsFailure() {
      !Ok?
    }

    function PropagateFailure<U>(): Parsed<U>
      requires !Ok?
    {
      if Bad? then Parsed<U>.Bad else Parsed<U>.Float
    }

    function Extract(): (T, string)
      requires Ok?
    {
      (value, rest)
    }
  }

  predicate IsSpace(c: char) {
    c == ' ' || (9 as char <= c <= 13 as char)
  }

  predicate IsDigit(c: char) {
    '0' <= c <= '9'
  }

  predicate StartsWith(s: string, c: char) {
    s != [] && s[0] == c
  }

  /** After a line comment's two slashes. */
  function SkipLine(s: string): (r: string)
    ensures |r| <= |s|
  {
    if s == [] then [] else if s[0] == '\r' || s[0] == '\n' then s[1..] else SkipLine(s[1..])
  }

  /** After the opening of a bracketed comment; another opening inside is an error. */
  function SkipBlock(s: string): (r: Parsed<()>)
    ensures r.Ok? ==> |r.rest| < |s|
    ensures !r.Float?
  {
    if s == [] then Bad
    else if s[0] == '*' && StartsWith(s[1..], '/') then Ok((), s[2..])
    else if s[0] == '/' && StartsWith(s[1..], '*') then Bad
    else SkipBlock(s[1..])
  }

  function SkipComment(s: string): (r: Parsed<()>)
    requires StartsWith(s, '/')
    ensures r.Ok? ==> |r.rest| < |s|
    ensures !r.Float?
  {
    if |s| < 2 then Bad
    else if s[1] == '/' then Ok((), SkipLine(s[2..]))
    else if s[1] == '*' then SkipBlock(s[2..])
    else Bad
  }

  /** Past white space and comments. */
  function EatWhitespace(s: string): (r: Parsed<()>)
    ensures r.Ok? ==> |r.rest| <= |s| && (r.rest != [] ==> !IsSpace(r.rest[0]) && r.rest[0] != '/')
    ensures !r.Float?
    decreases |s|
  {
    if s == [] then Ok((), s)
    else if IsSpace(s[0]) then EatWhitespace(s[1..])
    else if s[0] == '/' then
      match SkipComment(s)
      case Ok(_, rest) => EatWhitespace(rest)
      case _ => Bad
    else Ok((), s)
  }

  /** The digits at the front. */
  function Digits(s: string): (r: string)
    ensures r <= s && (forall i :: 0 <= i < |r| ==> IsDigit(r[i]))
    ensures |r| < |s| ==> !IsDigit(s[|r|])
  {
    if s != [] && IsDigit(s[0]) then [s[0]] + Digits(s[1..]) else []
  }

  function NaturalValue(s: string): nat
    requires forall i :: 0 <= i < |s| ==> IsDigit(s[i])
  {
    if s == [] then 0
    else
      assert IsDigit(s[|s| - 1]);
      10 * NaturalValue(s[..|s| - 1]) + (s[|s| - 1] - '0') as nat
  }

  /** The digits and points at the front. */
  function Spelling(s: string): (r: string)
    ensures r <= s
  {
    if s != [] && (IsDigit(s[0]) || s[0] == '.') then [s[0]] + Spelling(s[1..]) else []
  }

  function Points(s: string): nat {
    if s == [] then 0 else (if s[0] == '.' then 1 else 0) + Points(s[1..])
  }

  /** Python makes a number of it: any first character, then digits and points. */
  predicate Converts(text: string)
    requires text != []
  {
    && (IsDigit(text[0]) || text[0] == '-' || text[0] == '+' || IsSpace(text[0]))
    && Points(text[1..]) <= 1 && exists i :: 0 <= i < |text| && IsDigit(text[i])
  }

  /** Whatever stands first after the e is taken for the first character of the exponent. */
  predicate ExponentConverts(s: string) {
    s != [] && Converts([s[0]] + Spelling(s[1..]))
  }

  /** A number with a point or an exponent can be converted. */
  predicate FloatConverts(s: string)
    requires s != []
  {
    var spelled := Spelling(s[1..]);
    var rest := s[1 + |spelled|..];
    (StartsWith(rest, 'e') ==> ExponentConverts(rest[1..])) && Converts([s[0]] + spelled)
  }

  /** A number, whose first character is a digit or a minus sign. */
  function ParseNumber(s: string): (r: Parsed<Json>)
    requires s != [] && (s[0] == '-' || IsDigit(s[0]))
    ensures r.Ok? ==> |r.rest| < |s|
  {
    var digits := Digits(s[1..]);
    var rest := s[1 + |digits|..];
    if StartsWith(rest, '.') || StartsWith(rest, 'e') then
      if FloatConverts(s) then Float else Bad
    else if s[0] != '-' then Ok(Int(NaturalValue([s[0]] + digits)), rest)
    else if digits == [] then Bad
    else Ok(Int(0 - NaturalValue(digits)), rest)
  }

  function HexValue(c: char): int {
    if IsDigit(c) then (c - '0') as int
    else if 'A' <= c <= 'F' then (c - 'A') as int + 10
    else if 'a' <= c <= 'f' then (c - 'a') as int + 10
    else -1
  }

  /** The character that four hex digits stand for, which the buffer of a byte string
      only takes when it is ASCII. */
  function ParseHex(s: string): (r: Parsed<char>)
    ensures r.Ok? ==> |r.rest| == |s| - 4
    ensures !r.Float?
  {
    if |s| < 4 then Bad
    else if HexValue(s[0]) < 0 || HexValue(s[1]) < 0 || HexValue(s[2]) < 0 || HexValue(s[3]) < 0 then Bad
    else
      var n := 4096 * HexValue(s[0]) + 256 * HexValue(s[1]) + 16 * HexValue(s[2]) + HexValue(s[3]);
      if n < 128 then Ok(n as char, s[4..]) else Bad
  }

  function Unescaped(c: char): char {
    if c == 'b' then 8 as char
    else if c == 'r' then '\r'
    else if c == 'n' then '\n'
    else if c == 'f' then 12 as char
    else if c == 't' then '\t'
    else c
  }

  /** The character that an escape stands for, after its backslash. */
  function ParseEscape(s: string): (r: Parsed<char>)
    ensures r.Ok? ==> |r.rest| < |s|
    ensures !r.Float?
  {
    if s == [] then Bad
    else if s[0] in "brnft\"/\\" then Ok(Unescaped(s[0]), s[1..])
    else if s[0] == 'u' then ParseHex(s[1..])
    else Bad
  }

  /** The rest of a string literal, its closing quote included. */
  function ParseChars(s: string): (r: Parsed<string>)
    ensures r.Ok? ==> |r.rest| < |s|
    ensures !r.Float?
    decreases |s|
  {
    if s == [] then Bad
    else if s[0] == '"' then Ok([], s[1..])
    else
      match if s[0] == '\\' then ParseEscape(s[1..]) else Ok(s[0], s[1..])
      case Ok(c, after) =>
        (match ParseChars(after)
         case Ok(more, rest) => Ok([c] + more, rest)
         case _ => Bad)
      case _ => Bad
  }

  function ParseWord(s: string, word: string, v: Json): (r: Parsed<Json>)
    ensures r.Ok? ==> |r.rest| == |s| - |word|
  {
    if word <= s then Ok(v, s[|word|..]) else Bad
  }

  /** Setting an item of a dictionary: a known key keeps its place. */
  function Put(entries: seq<Entry>, key: string, v: Json): seq<Entry> {
    if entries == [] then [Entry(key, v)]
    else if entries[0].key == key then [Entry(key, v)] + entries[1..]
    else [entries[0]] + Put(entries[1..], key, v)
  }

  function Parse(s: string): (r: Parsed<Json>)
    ensures r.Ok? ==> |r.rest| < |s|
    decreases |s|, 1
  {
    match EatWhitespace(s)
    case Bad => Bad
    case Float => Bad
    case Ok(_, t) =>
      if t == [] then Bad
      else if t[0] == '{' then ParseObject(t[1..])
      else if t[0] == '[' then ParseArray(t[1..])
      else if t[0] == '"' then
        match ParseChars(t[1..])
        case Ok(chars, rest) => Ok(Str(chars), rest)
        case _ => Bad
      else if t[0] == '-' || IsDigit(t[0]) then ParseNumber(t)
      else if t[0] == 't' then ParseWord(t, "true", Bool(true))
      else if t[0] == 'f' then ParseWord(t, "false", Bool(false))
      else if t[0] == 'n' then ParseWord(t, "null", Null)
      else Bad
  }

  /** After the opening bracket. */
  function ParseArray(s: string): (r: Parsed<Json>)
    ensures r.Ok? ==> |r.rest| < |s|
    decreases |s|, 3
  {
    if StartsWith(s, ']') then Ok(List([]), s[1..]) else ParseItems(s, [])
  }

  /** After the opening brace. */
  function ParseObject(s: string): (r: Parsed<Json>)
    ensures r.Ok? ==> |r.rest| < |s|
    decreases |s|, 4
  {
    if StartsWith(s, '}') then Ok(Dict([]), s[1..]) else ParseEntries(s, [])
  }

  /** Items up to the closing bracket, some read already. */
  function ParseItems(s: string, done: seq<Json>): (r: Parsed<Json>)
    ensures r.Ok? ==> |r.rest| < |s|
    decreases |s|, 2
  {
    var (v, r1) :- Parse(s);
    var (_, r2) :- EatWhitespace(r1);
    if r2 == [] then Bad
    else if r2[0] == ']' then Ok(List(done + [v]), r2[1..])
    else if r2[0] == ',' then ParseItems(r2[1..], done + [v])
    else Bad
  }

  /** A key, a colon and a value, and past the white space after them. */
  function ParseEntry(s: string): (r: Parsed<Entry>)
    ensures r.Ok? ==> |r.rest| < |s|
    decreases |s|, 2
  {
    var (key, r1) :- Parse(s);
    if !key.Str? then Bad
    else
      var (_, r2) :- EatWhitespace(r1);
      if !StartsWith(r2, ':') then Bad
      else
        var (_, r3) :- EatWhitespace(r2[1..]);
        var (v, r4) :- Parse(r3);
        var (_, r5) :- EatWhitespace(r4);
        Ok(Entry(key.s, v), r5)
  }

  /** Entries up to the closing brace, some read already. */
  function ParseEntries(s: string, done: seq<Entry>): (r: Parsed<Json>)
    ensures r.Ok? ==> |r.rest| < |s|
    decreases |s|, 3
  {
    var (e, rest) :- ParseEntry(s);
    if rest == [] then Bad
    else if rest[0] == '}' then Ok(Dict(Put(done, e.key, e.value)), rest[1..])
    else if rest[0] == ',' then ParseEntries(rest[1..], Put(done, e.key, e.value))
    else Bad
  }
}
