/** The JSON writer (parted/jsonwrt.c:30-225): an output stream, a nesting depth and
    a flag that says whether a separator is due.  A whole tree is written by the
    calls that open, fill and close each of its parts in turn. */
module JsonWriter {
  import opened Geometry
  import opened JsonText
  import opened JsonRoundTrip

  datatype PartKind = Object | Array | Scalar

  /** `struct ul_jsonwrt`, the stream being the text put out so far. */
  datatype State = State(out: string, indent: nat, afterClose: bool)

  function Lead(name: Option<string>, indent: nat, afterClose: bool): string {
    if name.Some? then (if afterClose then ",\n" else "") + (Pad(indent) + Quoted(name.value, true))
    else if afterClose then "," else Pad(indent)
  }

  function Opening(name: Option<string>, kind: PartKind): string {
    match kind
    case Object => if name.Some? then ": {\n" else "{\n"
    case Array => if name.Some? then ": [\n" else "[\n"
    case Scalar => if name.Some? then ": " else " "
  }

  /** `ul_jsonwrt_open` */
  function Opened(w: State, name: Option<string>, kind: PartKind): State {
    State(w.out + (Lead(name, w.indent, w.afterClose) + Opening(name, kind)),
          if kind == Scalar then w.indent else w.indent + 1, false)
  }

  /** `ul_jsonwrt_close`; absent when its assertion fails. */
  function Closed(w: State, kind: PartKind): Option<State> {
    if w.indent == 1 then Some(State(w.out + "\n}\n", 0, true))
    else if w.indent == 0 then None
    else match kind
      case Object => Some(State(w.out + ("\n" + (Pad(w.indent - 1) + "}")), w.indent - 1, true))
      case Array => Some(State(w.out + ("\n" + (Pad(w.indent - 1) + "]")), w.indent - 1, true))
      case Scalar => Some(w.(afterClose := true))
  }

  // ---- the calls for a tree ----------------------------------------------------------------------

  function KindOf(v: Json): PartKind {
    if v.Obj? then Object else if v.Arr? then Array else Scalar
  }

  function Written(w: State, name: Option<string>, v: Json): Option<State>
    decreases v, 0
  {
    var o := Opened(w, name, KindOf(v));
    var inside := match v
                  case Obj(ms) => MembersWritten(o, ms)
                  case Arr(es) => ElemsWritten(o, es)
                  case _ => Some(o.(out := o.out + Text(v, 0)));
    if inside.None? then None else Closed(inside.value, KindOf(v))
  }

  function MembersWritten(w: State, ms: seq<Member>): Option<State>
    decreases ms, 1
  {
    if ms == [] then Some(w)
    else
      var w' := Written(w, Some(ms[0].name), ms[0].value);
      if w'.None? then None else MembersWritten(w'.value, ms[1..])
  }

  function ElemsWritten(w: State, es: seq<Json>): Option<State>
    decreases es, 1
  {
    if es == [] then Some(w)
    else
      var w' := Written(w, None, es[0]);
      if w'.None? then None else ElemsWritten(w'.value, es[1..])
  }

  /** A whole text. */
  function RootWritten(ms: seq<Member>): Option<State> {
    Written(State("", 0, false), None, Obj(ms))
  }

  // ---- what they put out --------------------------------------------------------------------------

  function Intro(name: Option<string>, v: Json): string {
    if name.Some? then ": " else if v.Container() then "" else " "
  }

  lemma OpeningSplits(name: Option<string>, v: Json)
    ensures Opening(name, KindOf(v)) ==
            Intro(name, v) + (if v.Obj? then "{\n" else if v.Arr? then "[\n" else "")
  {
  }

  /** Deep enough, a value puts out its name, a separator if due, and its text. */
  lemma {:induction false} WrittenIs(w: State, name: Option<string>, v: Json)
    requires w.indent >= 2 || (w.indent == 1 && v.Container())
    ensures Written(w, name, v) ==
            Some(State(w.out + (Lead(name, w.indent, w.afterClose) + (Intro(name, v) + Text(v, w.indent))), w.indent, true))
    decreases v, 1
  {
    hide Lead, Opening, Intro, Pad, MembersWritten, ElemsWritten, MembersText, ElemsText;
    var i, lead, intro := w.indent, Lead(name, w.indent, w.afterClose), Intro(name, v);
    OpeningSplits(name, v);
    var o := Opened(w, name, KindOf(v));
    match v
    case Obj(ms) =>
      MembersAre(o, ms);
      Splice(w.out, lead, intro, "{\n", MembersText(ms, i + 1, false), "\n" + (Pad(i) + "}"));
    case Arr(es) =>
      ElemsAre(o, es);
      Splice(w.out, lead, intro, "[\n", ElemsText(es, i + 1, false), "\n" + (Pad(i) + "]"));
    case _ =>
      assert Text(v, 0) == Text(v, i);
      assert intro + "" == intro;
      Assoc(w.out, lead + intro, Text(v, i));
      Assoc(lead, intro, Text(v, i));
  }

  lemma Splice(out: string, lead: string, intro: string, open: string, body: string, close: string)
    ensures ((out + (lead + (intro + open))) + body) + close == out + (lead + (intro + (open + (body + close))))
  {
    Assoc(out + (lead + (intro + open)), body, close);
    Assoc(out, lead + (intro + open), body + close);
    Assoc(lead, intro + open, body + close);
    Assoc(intro, open, body + close);
  }

  lemma {:induction false} MembersAre(w: State, ms: seq<Member>)
    requires w.indent >= 2 || (w.indent == 1 && forall k :: 0 <= k < |ms| ==> ms[k].value.Container())
    ensures MembersWritten(w, ms) ==
            Some(State(w.out + MembersText(ms, w.indent, w.afterClose), w.indent, w.afterClose || ms != []))
    decreases ms, 2
  {
    hide Written, Pad, Text, Quoted;
    if ms == [] {
      assert w.out + [] == w.out;
    } else {
      var i, name, v := w.indent, Some(ms[0].name), ms[0].value;
      WrittenIs(w, name, v);
      var w' := Written(w, name, v).value;
      MembersAre(w', ms[1..]);
      MemberSplice(w.out, if w.afterClose then ",\n" else "", Pad(i), Quoted(ms[0].name, true), Text(v, i), MembersText(ms[1..], i, true));
    }
  }

  lemma MemberSplice(out: string, comma: string, pad: string, name: string, text: string, more: string)
    ensures (out + ((comma + (pad + name)) + (": " + text))) + more == out + (comma + (pad + (name + (": " + (text + more)))))
  {
    Assoc(out, (comma + (pad + name)) + (": " + text), more);
    Assoc(comma + (pad + name), ": " + text, more);
    Assoc(": ", text, more);
    Assoc(comma, pad + name, ": " + (text + more));
    Assoc(pad, name, ": " + (text + more));
  }

  lemma {:induction false} ElemsAre(w: State, es: seq<Json>)
    requires w.indent >= 2
    ensures ElemsWritten(w, es) ==
            Some(State(w.out + ElemsText(es, w.indent, w.afterClose), w.indent, w.afterClose || es != []))
    decreases es, 2
  {
    hide Written, Pad, Text;
    if es == [] {
      assert w.out + [] == w.out;
    } else {
      var i, lead, space := w.indent, if w.afterClose then "," else Pad(w.indent), if es[0].Container() then "" else " ";
      WrittenIs(w, None, es[0]);
      var w' := Written(w, None, es[0]).value;
      ElemsAre(w', es[1..]);
      var text, more := Text(es[0], i), ElemsText(es[1..], i, true);
      Assoc(w.out, lead + (space + text), more);
      Assoc(lead, space + text, more);
      Assoc(space, text, more);
    }
  }

  // ---- scalars directly in the root -----------------------------------------------------------------

  /** The depth never ends up larger than it was, and a scalar at depth 1 or less
      ends the text. */
  lemma {:induction false} DepthFalls(w: State, name: Option<string>, v: Json)
    ensures var r := Written(w, name, v);
            r.Some? ==> r.value.indent <= w.indent && (!v.Container() && w.indent <= 1 ==> r.value.indent == 0)
    decreases v, 1
  {
    hide Lead, Opening, MembersWritten, ElemsWritten;
    var o := Opened(w, name, KindOf(v));
    match v
    case Obj(ms) => MembersFall(o, ms);
    case Arr(es) => ElemsFall(o, es);
    case _ =>
  }

  lemma {:induction false} MembersFall(w: State, ms: seq<Member>)
    ensures var r := MembersWritten(w, ms);
            r.Some? ==> r.value.indent <= w.indent
                        && (w.indent <= 1 && (exists k :: 0 <= k < |ms| && !ms[k].value.Container()) ==> r.value.indent == 0)
    decreases ms, 2
  {
    hide Written;
    if ms != [] {
      DepthFalls(w, Some(ms[0].name), ms[0].value);
      var w' := Written(w, Some(ms[0].name), ms[0].value);
      if w'.Some? {
        MembersFall(w'.value, ms[1..]);
        if k :| 0 <= k < |ms| && !ms[k].value.Container() {
          if k > 0 { assert !ms[1..][k - 1].value.Container(); }
        }
      }
    }
  }

  lemma {:induction false} ElemsFall(w: State, es: seq<Json>)
    ensures var r := ElemsWritten(w, es); r.Some? ==> r.value.indent <= w.indent
    decreases es, 2
  {
    hide Written;
    if es != [] {
      DepthFalls(w, None, es[0]);
      var w' := Written(w, None, es[0]);
      if w'.Some? { ElemsFall(w'.value, es[1..]); }
    }
  }

  /** Writing a root object runs through exactly when its members are all objects or
      arrays, and then its text is read back as the same tree with the names in
      lower case. */
  lemma RootRoundTrip(ms: seq<Member>)
    ensures RootWritten(ms).Some? <==> forall k :: 0 <= k < |ms| ==> ms[k].value.Container()
    ensures RootWritten(ms).Some? ==> Parse(RootWritten(ms).value.out) == Some(Lowered(Obj(ms)))
  {
    hide MembersText, MembersWritten, Parse, LoweredMembers;
    var o := Opened(State("", 0, false), None, Object);
    assert Pad(0) == "" && "" + ("" + "{\n") == "{\n";
    assert o == State("{\n", 1, false);
    if forall k :: 0 <= k < |ms| ==> ms[k].value.Container() {
      MembersAre(o, ms);
      Assoc("{\n", MembersText(ms, 1, false), "\n}\n");
      RootReads(ms);
    } else {
      MembersFall(o, ms);
    }
  }

  // ---- the writer itself ----------------------------------------------------------------------------

  class Writer {
    var out: string
    var indent: nat
    var afterClose: bool

    /** `ul_jsonwrt_init` */
    constructor (indent: nat)
      ensures Now() == State("", indent, false)
    {
      this.out, this.indent, this.afterClose := "", indent, false;
    }

    function Now(): State
      reads this
    {
      State(out, indent, afterClose)
    }

    /** `ul_jsonwrt_indent` */
    method Indent()
      modifies this`out
      ensures out == old(out) + Pad(indent)
    {
      var i := 0;
      while i < indent
        invariant 0 <= i <= indent
        invariant out == old(out) + Pad(i)
      {
        PadSnoc(i);
        out := out + "   ";
        i := i + 1;
      }
    }

    /** `fputs_quoted_case_json`, for no case change or lower case. */
    method PutQuoted(data: string, lower: bool)
      modifies this`out
      ensures out == old(out) + Quoted(data, lower)
    {
      hide Escape;
      out := out + ['"'];
      var i := 0;
      while i < |data|
        invariant 0 <= i <= |data|
        invariant out == old(out) + (['"'] + Escaped(data[..i], lower))
      {
        ghost var sofar := Escaped(data[..i], lower);
        EscapedSnoc(data[..i], data[i], lower);
        assert data[..i] + [data[i]] == data[..i + 1];
        PutChar(data[i], lower);
        Assoc(old(out), ['"'] + sofar, Escape(data[i], lower));
        Assoc(['"'], sofar, Escape(data[i], lower));
        i := i + 1;
      }
      assert data[..i] == data;
      out := out + ['"'];
      Assoc(old(out), ['"'] + Escaped(data, lower), ['"']);
    }

    method PutChar(c: char, lower: bool)
      modifies this`out
      ensures out == old(out) + Escape(c, lower)
    {
      if c == '"' || c == '\\' {
        out := out + ['\\', c];
      } else if c as int >= 0x20 {
        out := out + [if lower then LowerChar(c) else c];
      } else {
        PutControl(c, lower);
      }
    }

    method PutControl(c: char, lower: bool)
      requires c as int < 0x20
      modifies this`out
      ensures out == old(out) + Escape(c, lower)
    {
      match c as int
      case 8 => out := out + ['\\', 'b'];
      case 9 => out := out + ['\\', 't'];
      case 10 => out := out + ['\\', 'n'];
      case 12 => out := out + ['\\', 'f'];
      case 13 => out := out + ['\\', 'r'];
      case n => out := out + ['\\', 'u', '0', '0', HexDigit(n / 16), HexDigit(n % 16)];
    }

    /** What `ul_jsonwrt_open` puts before the opening token. */
    method PutLead(name: Option<string>)
      modifies this`out
      ensures out == old(out) + Lead(name, indent, afterClose)
    {
      hide Quoted, Pad;
      if name.Some? {
        ghost var comma := if afterClose then ",\n" else "";
        if afterClose { out := out + ",\n"; }
        assert out == old(out) + comma;
        Indent();
        PutQuoted(name.value, true);
        Assoc(old(out) + comma, Pad(indent), Quoted(name.value, true));
        Assoc(old(out), comma, Pad(indent) + Quoted(name.value, true));
      } else if afterClose {
        out := out + ",";
      } else {
        Indent();
      }
    }

    /** `ul_jsonwrt_open` */
    method Open(name: Option<string>, kind: PartKind)
      modifies this
      ensures Now() == Opened(old(Now()), name, kind)
    {
      hide Lead;
      PutLead(name);
      Assoc(old(out), Lead(name, indent, afterClose), Opening(name, kind));
      match kind {
        case Object => out := out + (if name.Some? then ": {\n" else "{\n"); indent := indent + 1;
        case Array => out := out + (if name.Some? then ": [\n" else "[\n"); indent := indent + 1;
        case Scalar => out := out + (if name.Some? then ": " else " ");
      }
      afterClose := false;
    }

    /** `ul_jsonwrt_close`; callers keep its assertion true. */
    method Close(kind: PartKind)
      requires indent > 0
      modifies this
      ensures Some(Now()) == Closed(old(Now()), kind)
    {
      hide Pad;
      if indent == 1 {
        out := out + "\n}\n";
        indent := indent - 1;
        afterClose := true;
        return;
      }
      match kind {
        case Object =>
          indent := indent - 1;
          out := out + ['\n'];
          Indent();
          out := out + "}";
          LastLine(old(out), Pad(indent), "}");
        case Array =>
          indent := indent - 1;
          out := out + ['\n'];
          Indent();
          out := out + "]";
          LastLine(old(out), Pad(indent), "]");
        case Scalar =>
      }
      afterClose := true;
    }

    /** `ul_jsonwrt_value_s`, `_u64`, `_boolean` and `_null` */
    method PutScalar(name: Option<string>, v: Json)
      requires !v.Container() && indent > 0
      modifies this
      ensures Some(Now()) == Written(old(Now()), name, v)
    {
      hide Opened, Closed, Decimal, Quoted;
      Open(name, Scalar);
      ghost var o := Now();
      assert o.indent == indent > 0 by { ScalarDepth(old(Now()), name); }
      match v {
        case Str(s) => PutQuoted(s, false);
        case Num(n) => out := out + Decimal(n);
        case Bool(b) => out := out + (if b then "true" else "false");
        case Null => out := out + "null";
      }
      assert Now() == o.(out := o.out + Text(v, 0));
      Close(Scalar);
    }

    // ---- writing a tree ---------------------------------------------------------------------------

    method Put(name: Option<string>, v: Json)
      requires Written(Now(), name, v).Some?
      modifies this
      ensures Some(Now()) == Written(old(Now()), name, v)
      decreases v, 0
    {
      match v
      case Obj(ms) => Open(name, Object); PutMembers(ms); Close(Object);
      case Arr(es) => Open(name, Array); PutElems(es); Close(Array);
      case _ => PutScalar(name, v);
    }

    method PutMembers(ms: seq<Member>)
      requires MembersWritten(Now(), ms).Some?
      modifies this
      ensures Some(Now()) == MembersWritten(old(Now()), ms)
      decreases ms, 1
    {
      if ms != [] {
        Put(Some(ms[0].name), ms[0].value);
        PutMembers(ms[1..]);
      }
    }

    method PutElems(es: seq<Json>)
      requires ElemsWritten(Now(), es).Some?
      modifies this
      ensures Some(Now()) == ElemsWritten(old(Now()), es)
      decreases es, 1
    {
      if es != [] {
        Put(None, es[0]);
        PutElems(es[1..]);
      }
    }
  }

  lemma ScalarDepth(w: State, name: Option<string>)
    ensures Opened(w, name, Scalar).indent == w.indent
  {
  }

  lemma LastLine(out: string, pad: string, close: string)
    ensures ((out + ['\n']) + pad) + close == out + ("\n" + (pad + close))
  {
    Assoc(out + ['\n'], pad, close);
    Assoc(out, ['\n'], pad + close);
  }

  lemma {:induction false} PadSnoc(i: nat)
    ensures Pad(i + 1) == Pad(i) + "   "
  {
    if i > 0 { PadSnoc(i - 1); }
  }

  /** Writing a tree whose root has only objects and arrays as members: no assertion
      fails, and the text reads back as that tree with its names in lower case. */
  method WriteTree(ms: seq<Member>) returns (text: string)
    requires forall k :: 0 <= k < |ms| ==> ms[k].value.Container()
    ensures Parse(text) == Some(Lowered(Obj(ms)))
  {
    hide Written, Parse, Lowered;
    RootRoundTrip(ms);
    var w := new Writer(0);
    w.Put(None, Obj(ms));
    text := w.out;
  }
}
