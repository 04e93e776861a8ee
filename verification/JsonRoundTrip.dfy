/** Reading the text of a tree gives the tree back, names in lower case. */
module JsonRoundTrip {
  import opened Geometry
  import opened JsonText

  ghost predicate AllWs(w: string) {
    forall i :: 0 <= i < |w| ==> Ws(w[i])
  }

  lemma {:induction false} SkipOver(w: string, t: string)
    requires AllWs(w)
    ensures Skip(w + t) == Skip(t)
  {
    if w == [] {
      assert w + t == t;
    } else {
      assert (w + t)[0] == w[0] && (w + t)[1..] == w[1..] + t;
      SkipOver(w[1..], t);
    }
  }

  lemma {:induction false} PadWs(i: nat)
    ensures AllWs(Pad(i))
  {
    if i > 0 { PadWs(i - 1); }
  }

  /** White space before a token. */
  lemma SkipTo(i: nat, newline: string, t: string)
    requires newline == "" || newline == "\n" || newline == " "
    requires t != [] && !Ws(t[0])
    ensures Skip(newline + (Pad(i) + t)) == t
  {
    hide Pad;
    PadWs(i);
    SkipOver(Pad(i), t);
    SkipOver(newline, Pad(i) + t);
  }

  lemma SkipSpace(t: string)
    requires t != [] && !Ws(t[0])
    ensures Skip(" " + t) == t && Skip(t) == t
  {
    SkipOver(" ", t);
  }

  /** Only what follows the white space matters. */
  lemma SkipTwice(s: string)
    ensures Skip(Skip(s)) == Skip(s)
  {
  }

  lemma ValueSkips(s: string)
    ensures ReadValue(s) == ReadValue(Skip(s))
  {
    hide Skip, ReadMembers, ReadElems, ReadString, ReadNumber, ReadWord;
    SkipTwice(s);
  }

  lemma MembersSkip(s: string, acc: seq<Member>)
    ensures ReadMembers(s, acc) == ReadMembers(Skip(s), acc)
  {
    hide Skip, ReadMember;
    assert ReadMember(s) == ReadMember(Skip(s)) by { MemberSkips(s); }
  }

  lemma MemberSkips(s: string)
    ensures ReadMember(s) == ReadMember(Skip(s))
  {
    hide Skip, ReadValue, ReadString;
    SkipTwice(s);
  }

  lemma ElemsSkip(s: string, acc: seq<Json>)
    ensures ReadElems(s, acc) == ReadElems(Skip(s), acc)
  {
    hide Skip, ReadValue;
    ValueSkips(s);
  }

  // ---- the shape of the text ------------------------------------------------------------------------

  /** What comes after the last member or element. */
  function Tail(i: nat, close: char, rest: string): string {
    "\n" + (Pad(i) + ([close] + rest))
  }

  function FirstMember(ms: seq<Member>, i: nat, tail: string): string
    requires ms != []
  {
    Quoted(ms[0].name, true) + (": " + (Text(ms[0].value, i) + (MembersText(ms[1..], i, true) + tail)))
  }

  function FirstElem(es: seq<Json>, i: nat, tail: string): string
    requires es != []
  {
    Text(es[0], i) + (ElemsText(es[1..], i, true) + tail)
  }

  lemma Assoc(a: string, b: string, c: string)
    ensures (a + b) + c == a + (b + c)
  {
  }

  lemma MembersSplit(ms: seq<Member>, i: nat, after: bool, tail: string)
    requires ms != []
    ensures MembersText(ms, i, after) + tail == (if after then ",\n" else "") + (Pad(i) + FirstMember(ms, i, tail))
  {
    hide Quoted, Text, Pad;
    var q, t, more := Quoted(ms[0].name, true), Text(ms[0].value, i), MembersText(ms[1..], i, true);
    var lead := if after then ",\n" else "";
    assert MembersText(ms, i, after) == lead + (Pad(i) + (q + (": " + (t + more))));
    Assoc(t, more, tail);
    Assoc(": ", t + more, tail);
    Assoc(q, ": " + (t + more), tail);
    Assoc(Pad(i), q + (": " + (t + more)), tail);
    Assoc(lead, Pad(i) + (q + (": " + (t + more))), tail);
  }

  lemma ElemsSplit(es: seq<Json>, i: nat, after: bool, tail: string)
    requires es != []
    ensures ElemsText(es, i, after) + tail ==
            (if after then "," else Pad(i)) + ((if es[0].Container() then "" else " ") + FirstElem(es, i, tail))
  {
    hide Text, Pad;
    var t, more := Text(es[0], i), ElemsText(es[1..], i, true);
    var lead, space := if after then "," else Pad(i), if es[0].Container() then "" else " ";
    assert ElemsText(es, i, after) == lead + (space + (t + more));
    Assoc(t, more, tail);
    Assoc(space, t + more, tail);
    Assoc(lead, space + (t + more), tail);
  }

  lemma BodySplit(body: string, i: nat, close: char, rest: string)
    ensures (body + ("\n" + (Pad(i) + [close]))) + rest == body + Tail(i, close, rest)
  {
    hide Pad;
    Assoc(Pad(i), [close], rest);
    Assoc("\n", Pad(i) + [close], rest);
    Assoc(body, "\n" + (Pad(i) + [close]), rest);
  }

  /** The first character of a value's text. */
  lemma TextStarts(v: Json, i: nat)
    ensures Text(v, i) != [] && !Ws(Text(v, i)[0]) && Text(v, i)[0] != ']' && Text(v, i)[0] != '}'
  {
    hide MembersText, ElemsText, Pad, Escaped;
    if v.Num? { assert Digit(Decimal(v.n)[0]); }
  }

  /** What follows a member or an element ends a number. */
  lemma MoreEnds(ms: seq<Member>, i: nat, tail: string)
    requires tail != [] && tail[0] == '\n'
    ensures Ends(MembersText(ms, i, true) + tail)
  {
    if ms != [] { MembersSplit(ms, i, true, tail); }
  }

  lemma MoreElemsEnd(es: seq<Json>, i: nat, tail: string)
    requires tail != [] && tail[0] == '\n'
    ensures Ends(ElemsText(es, i, true) + tail)
  {
    if es != [] { ElemsSplit(es, i, true, tail); }
  }

  // ---- reading it ---------------------------------------------------------------------------------------

  lemma ScalarReads(v: Json, i: nat, rest: string)
    requires !v.Container() && Ends(rest)
    ensures ReadValue(Text(v, i) + rest) == Some((v, rest))
  {
    hide Escaped, Decimal, ReadString, ReadNumber;
    TextStarts(v, i);
    var s := Text(v, i) + rest;
    assert s[|Text(v, i)|..] == rest;
    assert Skip(s) == s;
    match v
    case Str(x) =>
      assert s == ['"'] + (Escaped(x, false) + (['"'] + rest));
      assert s[1..] == Escaped(x, false) + (['"'] + rest);
      QuotedReads(x, false, rest);
    case Num(n) =>
      NumberReads(n, rest);
      assert Digit(Decimal(n)[0]);
    case Bool(b) => assert b ==> "true" <= s; assert !b ==> "false" <= s;
    case Null => assert "null" <= s;
  }

  lemma {:induction false} ValueReads(v: Json, i: nat, rest: string)
    requires Ends(rest)
    ensures ReadValue(Text(v, i) + rest) == Some((Lowered(v), rest))
    decreases v, 0
  {
    hide Text, ReadValue, MembersText, ElemsText;
    match v
    case Obj(ms) => ObjReads(ms, i, rest);
    case Arr(es) => ArrReads(es, i, rest);
    case _ => ScalarReads(v, i, rest);
  }

  lemma {:induction false} ObjReads(ms: seq<Member>, i: nat, rest: string)
    ensures ReadValue(Text(Obj(ms), i) + rest) == Some((Obj(LoweredMembers(ms)), rest))
    decreases ms, 2
  {
    hide MembersText, Pad, ReadMembers, LoweredMembers, Skip, FirstMember;
    var body, tail := MembersText(ms, i + 1, false), Tail(i, '}', rest);
    var s := Text(Obj(ms), i) + rest;
    Assoc("{\n", body + ("\n" + (Pad(i) + "}")), rest);
    BodySplit(body, i, '}', rest);
    assert s == "{\n" + (body + tail);
    OpenSkips('{', body + tail);
    assert s[1..] == "\n" + (body + tail);
    if ms == [] {
      assert body == [] by { NoMembers(i + 1); }
      assert body + tail == tail;
      SkipTail(i, '}', rest);
      assert (['}'] + rest)[1..] == rest;
      assert LoweredMembers(ms) == [] by { NoLowered(); }
    } else {
      MembersSplit(ms, i + 1, false, tail);
      var first := FirstMember(ms, i + 1, tail);
      assert body + tail == Pad(i + 1) + first;
      assert first[0] == '"' by { FirstQuote(ms, i + 1, tail); }
      SkipTo(i + 1, "\n", first);
      MembersRead(ms, i + 1, i, [], rest);
      assert [] + LoweredMembers(ms) == LoweredMembers(ms);
    }
  }

  lemma OpenSkips(open: char, t: string)
    requires !Ws(open)
    ensures Skip([open] + ("\n" + t)) == [open] + ("\n" + t) == [open, '\n'] + t
  {
  }

  lemma NoMembers(i: nat)
    ensures MembersText([], i, false) == [] && ElemsText([], i, false) == []
  {
  }

  lemma NoLowered()
    ensures LoweredMembers([]) == [] && LoweredElems([]) == []
  {
  }

  lemma FirstQuote(ms: seq<Member>, i: nat, tail: string)
    requires ms != []
    ensures FirstMember(ms, i, tail) != [] && FirstMember(ms, i, tail)[0] == '"'
  {
  }

  lemma SkipTail(i: nat, close: char, rest: string)
    requires !Ws(close)
    ensures Skip("\n" + Tail(i, close, rest)) == [close] + rest && Skip(Tail(i, close, rest)) == [close] + rest
  {
    hide Pad;
    SkipTo(i, "\n", [close] + rest);
    SkipOver("\n", Tail(i, close, rest));
  }

  /** One member and what follows it. */
  lemma {:induction false} MemberReads(ms: seq<Member>, i: nat, tail: string)
    requires ms != [] && tail != [] && tail[0] == '\n'
    ensures ReadMember(FirstMember(ms, i, tail)) ==
            Some((Lower(ms[0].name), Lowered(ms[0].value), MembersText(ms[1..], i, true) + tail))
    decreases ms, 0
  {
    hide Escaped, Text, ReadString, ReadValue, MembersText, Lowered;
    var more := MembersText(ms[1..], i, true) + tail;
    var value := Text(ms[0].value, i) + more;
    var s := FirstMember(ms, i, tail);
    assert s == ['"'] + (Escaped(ms[0].name, true) + (['"'] + (": " + value)));
    assert s[1..] == Escaped(ms[0].name, true) + (['"'] + (": " + value));
    assert Skip(s) == s;
    QuotedReads(ms[0].name, true, ": " + value);
    assert Skip(": " + value) == ": " + value;
    assert (": " + value)[1..] == " " + value;
    TextStarts(ms[0].value, i);
    MoreEnds(ms[1..], i, tail);
    ValueReads(ms[0].value, i, more);
    ValueSkips(" " + value);
    SkipSpace(value);
  }

  lemma {:induction false} MembersRead(ms: seq<Member>, i: nat, j: nat, acc: seq<Member>, rest: string)
    requires ms != []
    ensures ReadMembers(FirstMember(ms, i, Tail(j, '}', rest)), acc) == Some((Obj(acc + LoweredMembers(ms)), rest))
    decreases ms, 1
  {
    hide FirstMember, Pad, ReadMember, MembersText, Skip, Lowered, Lower;
    var tail := Tail(j, '}', rest);
    var more := MembersText(ms[1..], i, true) + tail;
    var acc' := acc + [Member(Lower(ms[0].name), Lowered(ms[0].value))];
    MemberReads(ms, i, tail);
    assert acc' + LoweredMembers(ms[1..]) == acc + LoweredMembers(ms);
    if ms[1..] == [] {
      assert more == tail by { NoMore(i); }
      SkipTail(j, '}', rest);
      assert acc' == acc + LoweredMembers(ms);
      assert (['}'] + rest)[1..] == rest;
    } else {
      var next := FirstMember(ms[1..], i, tail);
      MembersSplit(ms[1..], i, true, tail);
      assert more == [','] + ("\n" + (Pad(i) + next));
      FirstQuote(ms[1..], i, tail);
      CommaStays("\n" + (Pad(i) + next));
      SkipTo(i, "\n", next);
      MembersSkip("\n" + (Pad(i) + next), acc');
      MembersRead(ms[1..], i, j, acc', rest);
    }
  }

  lemma NoMore(i: nat)
    ensures MembersText([], i, true) == [] && ElemsText([], i, true) == []
  {
  }

  lemma CommaStays(t: string)
    ensures Skip([','] + t) == [','] + t && ([','] + t)[1..] == t
  {
  }

  lemma {:induction false} ArrReads(es: seq<Json>, i: nat, rest: string)
    ensures ReadValue(Text(Arr(es), i) + rest) == Some((Arr(LoweredElems(es)), rest))
    decreases es, 2
  {
    hide ElemsText, Pad, ReadElems, LoweredElems, Skip, FirstElem;
    var body, tail := ElemsText(es, i + 1, false), Tail(i, ']', rest);
    var s := Text(Arr(es), i) + rest;
    Assoc("[\n", body + ("\n" + (Pad(i) + "]")), rest);
    BodySplit(body, i, ']', rest);
    assert s == "[\n" + (body + tail);
    OpenSkips('[', body + tail);
    assert s[1..] == "\n" + (body + tail);
    if es == [] {
      assert body == [] by { NoMembers(i + 1); }
      assert body + tail == tail;
      SkipTail(i, ']', rest);
      assert ([']'] + rest)[1..] == rest;
      assert LoweredElems(es) == [] by { NoLowered(); }
    } else {
      var first := FirstElem(es, i + 1, tail);
      FirstElemStarts(es, i + 1, tail);
      ElemsSplit(es, i + 1, false, tail);
      PadWs(i + 1);
      ElemLead(es[0], Pad(i + 1), first);
      SkipOver("\n", body + tail);
      ElemsRead(es, i + 1, i, [], rest);
      assert [] + LoweredElems(es) == LoweredElems(es);
    }
  }

  lemma FirstElemStarts(es: seq<Json>, i: nat, tail: string)
    requires es != []
    ensures var f := FirstElem(es, i, tail); f != [] && !Ws(f[0]) && f[0] != ']'
  {
    hide Text;
    TextStarts(es[0], i);
  }

  /** The space before a scalar element. */
  lemma ElemLead(v: Json, lead: string, first: string)
    requires AllWs(lead) && first != [] && !Ws(first[0])
    ensures Skip(lead + ((if v.Container() then "" else " ") + first)) == first
  {
    var space := if v.Container() then "" else " ";
    SkipOver(lead, space + first);
    SkipOver(space, first);
  }

  lemma {:induction false} ElemsRead(es: seq<Json>, i: nat, j: nat, acc: seq<Json>, rest: string)
    requires es != []
    ensures ReadElems(FirstElem(es, i, Tail(j, ']', rest)), acc) == Some((Arr(acc + LoweredElems(es)), rest))
    decreases es, 1
  {
    hide Text, Pad, ReadValue, ElemsText, Skip, Lowered;
    var tail := Tail(j, ']', rest);
    var more := ElemsText(es[1..], i, true) + tail;
    var acc' := acc + [Lowered(es[0])];
    MoreElemsEnd(es[1..], i, tail);
    ValueReads(es[0], i, more);
    assert acc' + LoweredElems(es[1..]) == acc + LoweredElems(es);
    if es[1..] == [] {
      assert more == tail by { NoMore(i); }
      SkipTail(j, ']', rest);
      assert acc' == acc + LoweredElems(es);
      assert ([']'] + rest)[1..] == rest;
    } else {
      var next := FirstElem(es[1..], i, tail);
      var space := if es[1].Container() then "" else " ";
      ElemsSplit(es[1..], i, true, tail);
      assert more == [','] + (space + next);
      FirstElemStarts(es[1..], i, tail);
      CommaStays(space + next);
      ElemLead(es[1], "", next);
      assert "" + (space + next) == space + next;
      ElemsSkip(space + next, acc');
      ElemsRead(es[1..], i, j, acc', rest);
    }
  }

  // ---- the whole text -----------------------------------------------------------------------------------

  /** The text of a root object: its closing brace is followed by a newline. */
  function RootText(ms: seq<Member>): string {
    "{\n" + (MembersText(ms, 1, false) + "\n}\n")
  }

  /** The whole text is read back. */
  lemma RootReads(ms: seq<Member>)
    ensures Parse(RootText(ms)) == Some(Obj(LoweredMembers(ms)))
  {
    hide MembersText, ReadValue, LoweredMembers;
    var body := MembersText(ms, 1, false);
    assert Pad(0) == [];
    assert Text(Obj(ms), 0) + "\n" == RootText(ms) by {
      assert "\n" + (Pad(0) + "}") == "\n}";
      Assoc(body, "\n}", "\n");
      Assoc("{\n", body + "\n}", "\n");
    }
    ObjReads(ms, 0, "\n");
    assert Skip("\n") == [];
  }
}
