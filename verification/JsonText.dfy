/** JSON values, a reader for them after RFC 8259 (strings as in section 7, numbers
    restricted to unsigned integers), and the text of strings and numbers as the
    writer of parted/jsonwrt.c puts them out, with the proof that reading undoes
    it. */
module JsonText {
  import opened Geometry

  datatype Json = Null | Bool(b: bool) | Num(n: nat) | Str(s: string)
                | Obj(members: seq<Member>) | Arr(elems: seq<Json>) {
    predicate Container() {
      Obj? || Arr?
    }
  }

  datatype Member = Member(name: string, value: Json)

  // ---- characters -------------------------------------------------------------------------------

  predicate Ws(c: char) {
    c == ' ' || c == '\t' || c == '\n' || c == '\r'
  }

  predicate Digit(c: char) {
    '0' <= c <= '9'
  }

  function HexDigit(n: int): char
    requires 0 <= n < 16
  {
    if n < 10 then '0' + n as char else 'a' + (n - 10) as char
  }

  function HexValue(c: char): int {
    if '0' <= c <= '9' then c as int - '0' as int
    else if 'a' <= c <= 'f' then c as int - 'a' as int + 10
    else if 'A' <= c <= 'F' then c as int - 'A' as int + 10
    else -1
  }

  /** `c_tolower` */
  function LowerChar(c: char): char {
    if 'A' <= c <= 'Z' then c + 32 as char else c
  }

  function Lower(s: string): (r: string)
    ensures |r| == |s|
  {
    if s == [] then [] else [LowerChar(s[0])] + Lower(s[1..])
  }

  function Cased(c: char, lower: bool): char {
    if lower then LowerChar(c) else c
  }

  function CasedAll(s: string, lower: bool): string {
    if lower then Lower(s) else s
  }

  // ---- writing strings -------------------------------------------------------------------------

  /** One character inside a quoted string. */
  function Escape(c: char, lower: bool): (r: string)
    ensures |r| >= 1
  {
    if c == '"' || c == '\\' then ['\\', c]
    else if c as int >= 0x20 then [Cased(c, lower)]
    else match c as int
      case 8 => ['\\', 'b']
      case 9 => ['\\', 't']
      case 10 => ['\\', 'n']
      case 12 => ['\\', 'f']
      case 13 => ['\\', 'r']
      case n => ['\\', 'u', '0', '0', HexDigit(n / 16), HexDigit(n % 16)]
  }

  function Escaped(s: string, lower: bool): string {
    if s == [] then [] else Escape(s[0], lower) + Escaped(s[1..], lower)
  }

  function Quoted(s: string, lower: bool): string {
    ['"'] + Escaped(s, lower) + ['"']
  }

  lemma {:induction false} EscapedSnoc(s: string, c: char, lower: bool)
    ensures Escaped(s + [c], lower) == Escaped(s, lower) + Escape(c, lower)
  {
    hide Escape;
    if s == [] {
      assert [c][1..] == [];
      assert Escaped([c], lower) == Escape(c, lower) + Escaped([], lower);
      assert [] + [c] == [c];
    } else {
      EscapedSnoc(s[1..], c, lower);
      assert (s + [c])[1..] == s[1..] + [c];
      assert Escaped(s + [c], lower) == Escape(s[0], lower) + (Escaped(s[1..], lower) + Escape(c, lower));
    }
  }

  // ---- reading strings ---------------------------------------------------------------------------

  /** One character of a string body that starts at `s`, and what follows it. */
  function ReadChar(s: string): (r: Option<(char, string)>)
    requires s != []
    ensures r.Some? ==> |r.value.1| < |s|
  {
    if s[0] != '\\' then
      if s[0] as int < 0x20 || s[0] == '"' then None else Some((s[0], s[1..]))
    else if |s| < 2 then None
    else match s[1]
      case '"' => Some(('"', s[2..]))
      case '\\' => Some(('\\', s[2..]))
      case '/' => Some(('/', s[2..]))
      case 'b' => Some((8 as char, s[2..]))
      case 'f' => Some((12 as char, s[2..]))
      case 'n' => Some((10 as char, s[2..]))
      case 'r' => Some((13 as char, s[2..]))
      case 't' => Some((9 as char, s[2..]))
      case 'u' => if |s| < 6 then None else ReadHex(s)
      case _ => None
  }

  /** `\uXXXX`, for characters outside the surrogates. */
  function ReadHex(s: string): (r: Option<(char, string)>)
    requires |s| >= 6
    ensures r.Some? ==> |r.value.1| < |s|
  {
    var a, b, c, d := HexValue(s[2]), HexValue(s[3]), HexValue(s[4]), HexValue(s[5]);
    if a < 0 || b < 0 || c < 0 || d < 0 then None
    else
      var n := ((a * 16 + b) * 16 + c) * 16 + d;
      if n < 0xD800 then Some((n as char, s[6..])) else None
  }

  /** The rest of a string after its opening quote, up to its closing one. */
  function ReadString(s: string): (r: Option<(string, string)>)
    ensures r.Some? ==> |r.value.1| < |s|
    decreases |s|
  {
    if s == [] then None
    else if s[0] == '"' then Some(([], s[1..]))
    else
      var c := ReadChar(s);
      if c.None? then None
      else
        var rest := ReadString(c.value.1);
        if rest.None? then None else Some(([c.value.0] + rest.value.0, rest.value.1))
  }

  lemma EscapeReads(c: char, lower: bool, rest: string)
    ensures Escape(c, lower)[0] != '"'
    ensures ReadChar(Escape(c, lower) + rest) == Some((Cased(c, lower), rest))
  {
    var e := Escape(c, lower);
    var t := e + rest;
    assert t[|e|..] == rest;
    if c == '"' || c == '\\' || c as int >= 0x20 {
    } else if c as int in [8, 9, 10, 12, 13] {
      assert c as int == 8 || c as int == 9 || c as int == 10 || c as int == 12 || c as int == 13;
    } else {
      ControlReads(c, rest);
    }
  }

  lemma ControlReads(c: char, rest: string)
    requires c as int < 0x20
    ensures var t := ['\\', 'u', '0', '0', HexDigit(c as int / 16), HexDigit(c as int % 16)] + rest;
            ReadHex(t) == Some((c, rest))
  {
    var n := c as int;
    HexReads(n / 16);
    HexReads(n % 16);
    var t := ['\\', 'u', '0', '0', HexDigit(n / 16), HexDigit(n % 16)] + rest;
    assert t[6..] == rest;
  }

  lemma HexReads(n: int)
    requires 0 <= n < 16
    ensures HexValue(HexDigit(n)) == n
  {
  }

  /** Reading a quoted string gives it back, in lower case if it was written so. */
  lemma {:induction false} QuotedReads(s: string, lower: bool, rest: string)
    ensures ReadString(Escaped(s, lower) + (['"'] + rest)) == Some((CasedAll(s, lower), rest))
    decreases |s|
  {
    hide Escape, ReadChar;
    var tail := ['"'] + rest;
    if s == [] {
      assert Escaped(s, lower) + tail == tail;
      assert tail[1..] == rest;
    } else {
      var e, more := Escape(s[0], lower), Escaped(s[1..], lower) + tail;
      assert Escaped(s, lower) + tail == e + more;
      EscapeReads(s[0], lower, more);
      assert (e + more)[0] == e[0];
      QuotedReads(s[1..], lower, rest);
      assert [s[0]] + s[1..] == s;
    }
  }

  // ---- numbers ----------------------------------------------------------------------------------

  function DigitChar(n: int): char
    requires 0 <= n < 10
  {
    '0' + n as char
  }

  /** Decimal digits, as `printf` puts them out. */
  function Decimal(n: nat): (r: string)
    ensures |r| >= 1 && (forall i :: 0 <= i < |r| ==> Digit(r[i]))
    ensures n > 0 ==> r[0] != '0'
    ensures n == 0 ==> r == ['0']
  {
    if n < 10 then [DigitChar(n)] else Decimal(n / 10) + [DigitChar(n % 10)]
  }

  /** The longest run of digits at the start. */
  function Run(s: string): (k: nat)
    ensures k <= |s| && (forall i :: 0 <= i < k ==> Digit(s[i])) && (k < |s| ==> !Digit(s[k]))
  {
    if s == [] || !Digit(s[0]) then 0 else 1 + Run(s[1..])
  }

  function Value(s: string): nat
    requires forall i :: 0 <= i < |s| ==> Digit(s[i])
  {
    if s == [] then 0
    else
      assert Digit(s[|s| - 1]);
      Value(s[..|s| - 1]) * 10 + (s[|s| - 1] as int - '0' as int)
  }

  lemma {:induction false} DecimalValue(n: nat)
    ensures Value(Decimal(n)) == n
  {
    if n < 10 {
      assert Decimal(n)[..0] == [];
    } else {
      DecimalValue(n / 10);
      assert Decimal(n)[..|Decimal(n)| - 1] == Decimal(n / 10);
    }
  }

  /** An unsigned integer without leading zeros, and not the start of another number. */
  function ReadNumber(s: string): (r: Option<(nat, string)>)
    ensures r.Some? ==> |r.value.1| < |s|
  {
    var k := Run(s);
    if k == 0 || (k > 1 && s[0] == '0') then None
    else if k < |s| && s[k] in ['.', 'e', 'E'] then None
    else Some((Value(s[..k]), s[k..]))
  }

  /** What may follow a number. */
  predicate Ends(rest: string) {
    rest != [] ==> !Digit(rest[0]) && rest[0] !in ['.', 'e', 'E']
  }

  lemma NumberReads(n: nat, rest: string)
    requires Ends(rest)
    ensures ReadNumber(Decimal(n) + rest) == Some((n, rest))
  {
    hide Decimal;
    var d := Decimal(n);
    var s := d + rest;
    var k := Run(s);
    assert |d| < |s| ==> s[|d|] == rest[0];
    assert k == |d|;
    assert s[..k] == d && s[k..] == rest;
    DecimalValue(n);
  }

  // ---- reading values ----------------------------------------------------------------------------

  function Skip(s: string): (r: string)
    ensures |r| <= |s|
  {
    if s != [] && Ws(s[0]) then Skip(s[1..]) else s
  }

  function ReadWord(s: string, word: string, v: Json): (r: Option<(Json, string)>)
    requires word != []
    ensures r.Some? ==> |r.value.1| < |s|
  {
    if word <= s then Some((v, s[|word|..])) else None
  }

  function ReadValue(s: string): (r: Option<(Json, string)>)
    ensures r.Some? ==> |r.value.1| < |s|
    decreases |s|, 1
  {
    var t := Skip(s);
    if t == [] then None
    else if t[0] == '{' then
      var u := Skip(t[1..]);
      if u != [] && u[0] == '}' then Some((Obj([]), u[1..])) else ReadMembers(u, [])
    else if t[0] == '[' then
      var u := Skip(t[1..]);
      if u != [] && u[0] == ']' then Some((Arr([]), u[1..])) else ReadElems(u, [])
    else if t[0] == '"' then
      var x := ReadString(t[1..]);
      if x.None? then None else Some((Str(x.value.0), x.value.1))
    else if Digit(t[0]) then
      var x := ReadNumber(t);
      if x.None? then None else Some((Num(x.value.0), x.value.1))
    else if t[0] == 't' then ReadWord(t, "true", Bool(true))
    else if t[0] == 'f' then ReadWord(t, "false", Bool(false))
    else if t[0] == 'n' then ReadWord(t, "null", Null)
    else None
  }

  /** A member, after the members in `acc`, and the rest of the object. */
  function ReadMembers(s: string, acc: seq<Member>): (r: Option<(Json, string)>)
    ensures r.Some? ==> |r.value.1| < |s|
    decreases |s|, 2
  {
    var m := ReadMember(s);
    if m.None? then None
    else
      var (name, v, rest) := m.value;
      var u := Skip(rest);
      if u == [] then None
      else if u[0] == '}' then Some((Obj(acc + [Member(name, v)]), u[1..]))
      else if u[0] == ',' then ReadMembers(u[1..], acc + [Member(name, v)])
      else None
  }

  function ReadMember(s: string): (r: Option<(string, Json, string)>)
    ensures r.Some? ==> |r.value.2| < |s|
    decreases |s|, 1
  {
    var t := Skip(s);
    if t == [] || t[0] != '"' then None
    else
      var name := ReadString(t[1..]);
      if name.None? then None
      else
        var u := Skip(name.value.1);
        if u == [] || u[0] != ':' then None
        else
          var v := ReadValue(u[1..]);
          if v.None? then None else Some((name.value.0, v.value.0, v.value.1))
  }

  /** An element, after the elements in `acc`, and the rest of the array. */
  function ReadElems(s: string, acc: seq<Json>): (r: Option<(Json, string)>)
    ensures r.Some? ==> |r.value.1| < |s|
    decreases |s|, 2
  {
    var v := ReadValue(s);
    if v.None? then None
    else
      var u := Skip(v.value.1);
      if u == [] then None
      else if u[0] == ']' then Some((Arr(acc + [v.value.0]), u[1..]))
      else if u[0] == ',' then ReadElems(u[1..], acc + [v.value.0])
      else None
  }

  /** A whole text: one value and nothing after it but white space. */
  function Parse(s: string): Option<Json> {
    var r := ReadValue(s);
    if r.None? || Skip(r.value.1) != [] then None else Some(r.value.0)
  }

  /** A tree with its names in lower case. */
  function Lowered(v: Json): Json {
    match v
    case Obj(ms) => Obj(LoweredMembers(ms))
    case Arr(es) => Arr(LoweredElems(es))
    case _ => v
  }

  function LoweredMembers(ms: seq<Member>): seq<Member> {
    if ms == [] then [] else [Member(Lower(ms[0].name), Lowered(ms[0].value))] + LoweredMembers(ms[1..])
  }

  function LoweredElems(es: seq<Json>): seq<Json> {
    if es == [] then [] else [Lowered(es[0])] + LoweredElems(es[1..])
  }

  // ---- the text of a tree --------------------------------------------------------------------------

  function Pad(i: nat): string {
    if i == 0 then [] else "   " + Pad(i - 1)
  }

  /** The text of a value at nesting depth `i`, its name and separators aside. */
  function Text(v: Json, i: nat): string {
    match v
    case Null => "null"
    case Bool(b) => if b then "true" else "false"
    case Num(n) => Decimal(n)
    case Str(s) => Quoted(s, false)
    case Obj(ms) => "{\n" + (MembersText(ms, i + 1, false) + ("\n" + (Pad(i) + "}")))
    case Arr(es) => "[\n" + (ElemsText(es, i + 1, false) + ("\n" + (Pad(i) + "]")))
  }

  function MembersText(ms: seq<Member>, i: nat, after: bool): string {
    if ms == [] then []
    else (if after then ",\n" else "") + (Pad(i) + (Quoted(ms[0].name, true) + (": " + (Text(ms[0].value, i) + MembersText(ms[1..], i, true)))))
  }

  function ElemsText(es: seq<Json>, i: nat, after: bool): string {
    if es == [] then []
    else (if after then "," else Pad(i)) + ((if es[0].Container() then "" else " ") + (Text(es[0], i) + ElemsText(es[1..], i, true)))
  }
}
