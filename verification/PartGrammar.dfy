/** Header lines of a part as any client may write them: fields in any letter case and order,
    parameters quoted or not, extended file names, and fields the parser has no use for. What
    a line means is said by its parts, and the parser reads it so. */
module PartGrammar {
  import opened Bytes
  import opened Fields
  import opened PartHeaders
  import Query

  /** A parameter of a disposition, behind blanks. */
  datatype Param = Param(gap: string, key: string, value: string, quoted: bool)

  /** The file name of an extended parameter, behind blanks and the mark of its encoding. */
  datatype Extended = Extended(gap: string, mark: string, name: string)

  /** A header line: its name, what it says, and the blanks before and behind that. */
  datatype PartField =
    | TypeField(key: string, pad: string, value: string, post: string)
    | DispositionField(key: string, pad: string, form: string, params: seq<Param>, extended: Option<Extended>,
                       post: string)
    | OtherField(key: string, pad: string, value: string, post: string)

  // ------------------------------------------------------------------------ texts

  function ExtendedValue(x: Extended): string
    requires Query.ByteString(x.name)
  {
    x.mark + Query.Encoded(x.name)
  }

  /** All parameters, the extended one last. */
  function AllParams(f: PartField): seq<Param>
    requires f.DispositionField? && (f.extended.Some? ==> Query.ByteString(f.extended.value.name))
  {
    f.params + if f.extended.None? then []
               else [Param(f.extended.value.gap, "filename*", ExtendedValue(f.extended.value), false)]
  }

  function ParamText(p: Param): string { if p.quoted then Quoted(p.key, p.value) else p.key + "=" + p.value }

  function ParamsText(ps: seq<Param>, i: nat): string
    requires i < |ps|
    decreases |ps| - i
  {
    if i + 1 == |ps| then ParamText(ps[i]) else ParamText(ps[i]) + [';'] + (ps[i + 1].gap + ParamsText(ps, i + 1))
  }

  // ------------------------------------------------------------------------ legal

  predicate LegalParam(p: Param) {
    && Blanks(p.gap) && IsFieldName(p.key) && PlainParameter(p.value)
    && (!p.quoted ==> p.value == "" || (!IsBlank(p.value[0]) && !IsBlank(p.value[|p.value| - 1]) && p.value[0] != '"'))
  }

  predicate LegalParams(ps: seq<Param>) {
    && (forall i :: 0 <= i < |ps| ==> LegalParam(ps[i]))
    && forall i, j :: 0 <= i < j < |ps| ==> ParamText(ps[i]) != ParamText(ps[j])
  }

  predicate LegalExtended(x: Extended) {
    && Blanks(x.gap) && PlainParameter(x.mark) && EqualIgnoreCase(x.mark, UTF8_MARK)
    && Query.ByteString(x.name) && x.name != ""
  }

  function ValueText(f: PartField): string
    requires f.DispositionField? ==>
               (f.extended.Some? ==> Query.ByteString(f.extended.value.name)) && AllParams(f) != []
  {
    match f
    case TypeField(_, _, value, _) => value
    case DispositionField(_, _, form, _, _, _) => form + (AllParams(f)[0].gap + ParamsText(AllParams(f), 0))
    case OtherField(_, _, value, _) => value
  }

  /** A disposition whose parameters can be read, whatever they are. */
  predicate LegalDisposition(f: PartField) {
    && f.DispositionField? && EqualIgnoreCase(f.key, "Content-Disposition") && EqualIgnoreCase(f.form, FORM_DATA)
    && (f.extended.Some? ==> LegalExtended(f.extended.value))
    && LegalParams(AllParams(f)) && AllParams(f) != []
  }

  predicate Dispositioned(f: PartField) {
    LegalDisposition(f) && Blanks(f.pad) && Blanks(f.post) && IsFieldName(f.key) && IsFieldValue(ValueText(f))
  }

  predicate LegalField(f: PartField) {
    && (match f
        case TypeField(key, _, _, _) => EqualIgnoreCase(key, "Content-Type")
        case DispositionField(_, _, _, params, _, _) => LegalDisposition(f) && Plainly(params, "name").Some?
                                                     && Plainly(params, "filename*").None?
        case OtherField(key, _, value, _) =>
          !EqualIgnoreCase(key, "Content-Type")
          && (EqualIgnoreCase(key, "Content-Disposition") ==> !StartsWithIgnoreCase(value, FORM_DATA)))
    && Blanks(f.pad) && Blanks(f.post) && IsFieldName(f.key) && IsFieldValue(ValueText(f))
  }

  function LineWith(f: PartField, text: string): string { f.key + ":" + f.pad + text + f.post }

  function FieldLine(f: PartField): string
    requires LegalField(f)
  {
    LineWith(f, ValueText(f))
  }

  // ---------------------------------------------------------------------- meaning

  function Plainly(ps: seq<Param>, key: string): Option<string> {
    if ps == [] then None else if ps[0].key == key then Some(ps[0].value) else Plainly(ps[1..], key)
  }

  /** The type and the disposition say what they say, an extended file name overrides a plain
      one, and every other field says nothing. */
  function Meant(f: PartField, file: MultipartFormData): MultipartFormData {
    match f
    case TypeField(_, _, value, _) => file.(contentType := value)
    case OtherField(_, _, _, _) => file
    case DispositionField(_, _, _, params, extended, _) =>
      file.(name := match Plainly(params, "name") case None => file.name case Some(v) => v,
            filename := if extended.Some? then extended.value.name
                        else match Plainly(params, "filename") case None => file.filename case Some(v) => v)
  }

  // ------------------------------------------------------------- lines and names

  lemma LowerColon(c: char)
    ensures ToLower(c) == ':' <==> c == ':'
  {
  }

  /** The text up to the first colon decides. */
  lemma NameDecides(key: string, tail: string, name: string)
    requires ':' !in key && ':' !in name
    ensures StartsWithIgnoreCase(key + ":" + tail, name + ":") <==> EqualIgnoreCase(key, name)
  {
    var line, mark := key + ":" + tail, name + ":";
    if |mark| <= |line| {
      var start := line[..|mark|];
      assert forall i :: 0 <= i < |key| ==> line[i] == key[i];
      assert line[|key|] == ':' && mark[|name|] == ':';
      if |name| < |key| {
        LowerColon(key[|name|]);
        assert start[|name|] == key[|name|] != ':';
      } else if |key| < |name| {
        LowerColon(name[|key|]);
        assert start[|key|] == ':' && mark[|key|] == name[|key|];
      } else {
        assert forall i :: 0 <= i < |key| ==> start[i] == key[i] && mark[i] == name[i];
      }
    }
  }

  lemma TokenPlain(key: string)
    requires IsFieldName(key)
    ensures ':' !in key && ';' !in key && '=' !in key && '"' !in key && '\r' !in key
    ensures forall c :: c in key ==> !IsBlank(c)
  {
  }

  lemma {:induction false} BlanksSkipped(w: string, i: nat)
    requires Blanks(w) && i <= |w|
    ensures SkipBlanks(w, i) == |w|
    decreases |w| - i
  {
    if i < |w| { BlanksSkipped(w, i + 1); }
  }

  lemma {:induction false} AllBlank(w: string)
    requires Blanks(w)
    ensures Trimmed(w) == ""
  {
    BlanksSkipped(w, 0);
  }

  lemma {:induction false} TrimmedBetween(pad: string, a: string, post: string)
    requires Blanks(pad) && Blanks(post) && (a != "" ==> !IsBlank(a[0]) && !IsBlank(a[|a| - 1]))
    ensures Trimmed(pad + a + post) == a
  {
    var w := pad + a + post;
    if a == "" {
      assert w == pad + post;
      AllBlank(w);
    } else {
      Slots(pad, a, post, "");
      assert w + "" == w && w[..|pad| + |a|] == pad + a;
      assert w[|pad|] == a[0] && w[|pad| + |a| - 1] == a[|a| - 1];
      assert forall k :: 0 <= k < |pad| ==> w[k] == pad[k];
      SkipPad(w, 0, |pad|);
      DropPad(w, |pad| + |a|, |w|);
      assert w[|pad|..|pad| + |a|] == a;
    }
  }

  lemma TrimmedBehind(f: PartField, val: string)
    requires Blanks(f.pad) && Blanks(f.post) && IsFieldValue(val)
    ensures Trimmed(LineWith(f, val)[|f.key| + 1..]) == val
  {
    var start := f.key + ":";
    Append3(start, f.pad, val);
    Append3(start, f.pad + val, f.post);
    assert LineWith(f, val)[|start|..] == f.pad + val + f.post;
    TrimmedBetween(f.pad, val, f.post);
  }

  // ------------------------------------------------------------------- parameters

  function Texts(ps: seq<Param>): seq<string> {
    seq(|ps|, i requires 0 <= i < |ps| => ParamText(ps[i]))
  }

  function Pairs(ps: seq<Param>): Params {
    seq(|ps|, i requires 0 <= i < |ps| => (ps[i].key, ps[i].value))
  }

  lemma ParamPadded(p: Param)
    requires LegalParam(p)
    ensures Padded(ParamText(p), ';') && ParamText(p)[..|p.key| + 1] == p.key + "="
  {
    TokenPlain(p.key);
    var t := ParamText(p);
    assert p.quoted ==> t == p.key + "=" + ("\"" + p.value + "\"");
    assert t[0] == p.key[0];
  }

  lemma ParamRead(p: Param)
    requires LegalParam(p)
    ensures KeyValue(ParamText(p)) == Some((p.key, p.value))
  {
    TokenPlain(p.key);
    if p.quoted {
      QuotedKeyValue(p.key, p.value);
    } else if p.value == "" {
      assert ParamText(p) == p.key + ['='] + "";
      PiecesCons(p.key, '=', "");
      assert Pieces("", '=') == [];
      TrimmedIdentity(p.key);
    } else {
      assert ParamText(p) == p.key + ['='] + "" + p.value;
      TwoPieces(p.key, '=', "", p.value);
    }
  }

  lemma NoBlanks()
    ensures Blanks("")
  {
  }

  lemma GapBlank(p: Param)
    requires LegalParam(p)
    ensures Blanks(p.gap)
  {
  }

  lemma TextsStep(ps: seq<Param>, i: nat)
    requires i < |ps|
    ensures |Texts(ps)| == |ps| && Texts(ps)[i..] == [ParamText(ps[i])] + Texts(ps)[i + 1..]
  {
  }

  lemma {:induction false} OnePieceOf(p: Param, gap: string, post: string)
    requires LegalParam(p) && Blanks(gap) && Blanks(post)
    ensures Kept(Trimmed(gap + ParamText(p) + post)) == [ParamText(p)] && ';' !in gap + ParamText(p) + post
  {
    hide LegalParam, ParamText, Trimmed;
    ParamPadded(p);
    TrimmedBetween(gap, ParamText(p), post);
  }

  lemma {:induction false} PiecesAre(ps: seq<Param>, i: nat, gap: string, post: string)
    requires i < |ps| && Blanks(gap) && Blanks(post) && forall k :: 0 <= k < |ps| ==> LegalParam(ps[k])
    ensures Pieces(gap + (ParamsText(ps, i) + post), ';') == Texts(ps)[i..]
    decreases |ps| - i
  {
    hide LegalParam, ParamText, Blanks, Pieces, Kept, Trimmed, Texts;
    var text := ParamText(ps[i]);
    TextsStep(ps, i);
    if i + 1 == |ps| {
      OnePieceOf(ps[i], gap, post);
      Append3(gap, text, post);
      PiecesNone(gap + text + post, ';');
    } else {
      assert Blanks("") by { NoBlanks(); }
      OnePieceOf(ps[i], gap, "");
      assert gap + text + "" == gap + text;
      GapBlank(ps[i + 1]);
      var next, tail := ps[i + 1].gap, ParamsText(ps, i + 1) + post;
      PiecesAre(ps, i + 1, next, post);
      Append3(next, ParamsText(ps, i + 1), post);
      Append3(text + [';'], next + ParamsText(ps, i + 1), post);
      Append3(gap, text + [';'], next + tail);
      Append3(gap, text, [';']);
      PiecesCons(gap + text, ';', next + tail);
    }
  }

  lemma {:induction false} ParamsAre(ps: seq<Param>, i: nat)
    requires i <= |ps| && LegalParams(ps)
    ensures ParamsFrom(Texts(ps), i) == Pairs(ps)[i..]
    decreases |ps| - i
  {
    hide LegalParam, ParamText, KeyValue;
    var texts := Texts(ps);
    if i < |ps| {
      ParamsAre(ps, i + 1);
      ParamRead(ps[i]);
      forall k | 0 <= k < i ensures texts[k] != texts[i] { assert ParamText(ps[k]) != ParamText(ps[i]); }
      assert texts[i] !in texts[..i];
      assert Pairs(ps)[i..] == [Pairs(ps)[i]] + Pairs(ps)[i + 1..];
    }
  }

  lemma {:induction false} LookupIs(ps: seq<Param>, key: string)
    ensures Lookup(Pairs(ps), key) == Plainly(ps, key)
  {
    if ps != [] {
      assert Pairs(ps)[1..] == Pairs(ps[1..]);
      LookupIs(ps[1..], key);
    }
  }

  lemma {:induction false} PlainlyConcat(a: seq<Param>, b: seq<Param>, key: string)
    ensures Plainly(a + b, key) == if Plainly(a, key).Some? then Plainly(a, key) else Plainly(b, key)
  {
    if a == [] {
      assert a + b == b;
    } else {
      assert (a + b)[1..] == a[1..] + b;
      PlainlyConcat(a[1..], b, key);
    }
  }

  lemma {:induction false} DispositionRead(ps: seq<Param>, post: string)
    requires ps != [] && LegalParams(ps) && Blanks(post)
    ensures DispositionParams(ParamsText(ps, 0) + post) == Pairs(ps)
  {
    hide LegalParam, ParamsFrom, Pieces;
    PiecesAre(ps, 0, "", post);
    assert "" + (ParamsText(ps, 0) + post) == ParamsText(ps, 0) + post;
    ParamsAre(ps, 0);
    assert Texts(ps)[0..] == Texts(ps) && Pairs(ps)[0..] == Pairs(ps);
  }

  /** An extended name comes back as it was before it was encoded. */
  lemma {:induction false} ExtendedRead(x: Extended)
    requires LegalExtended(x)
    ensures ExtendedFilename(ExtendedValue(x)) == Some(x.name)
  {
    hide UrlDecoded;
    var e := Query.Encoded(x.name);
    Query.EncodeDecode(x.name, 0, false);
    assert x.name[0..] == x.name;
    if e == "" { Query.DecodeNothing(false); }
    var v := x.mark + e;
    assert v[..|UTF8_MARK|] == x.mark && v[|UTF8_MARK|..] == e;
  }

  // ------------------------------------------------------------- reading the lines

  lemma FixedNames()
    ensures CONTENT_TYPE == "Content-Type" + ":" && DISPOSITION == "Content-Disposition" + ":"
  {
  }

  lemma {:induction false} LineIsField(f: PartField, text: string)
    requires IsFieldName(f.key) && Blanks(f.pad) && Blanks(f.post) && IsFieldValue(text)
    ensures var line := LineWith(f, text);
            ParsedHeader(line).Some?
            && (StartsWithIgnoreCase(line, CONTENT_TYPE) <==> EqualIgnoreCase(f.key, "Content-Type"))
            && (StartsWithIgnoreCase(line, DISPOSITION) <==> EqualIgnoreCase(f.key, "Content-Disposition"))
  {
    hide ParsedHeader, StartsWithIgnoreCase, EqualIgnoreCase, IsFieldName, IsFieldValue;
    ParsedPadded(f.key, f.pad, text, f.post);
    assert ':' !in f.key by { TokenPlain(f.key); }
    Append3(f.key + ":", f.pad, text);
    Append3(f.key + ":", f.pad + text, f.post);
    NameDecides(f.key, f.pad + text + f.post, "Content-Type");
    NameDecides(f.key, f.pad + text + f.post, "Content-Disposition");
    FixedNames();
  }

  lemma FormStart(form: string)
    requires EqualIgnoreCase(form, FORM_DATA)
    ensures |form| == |FORM_DATA| && !IsBlank(form[0])
  {
    assert ToLower(form[0]) == ToLower(FORM_DATA[0]);
  }

  /** Blanks in front of something else are skipped. */
  lemma SkipTo(line: string, i: nat, pad: string, rest: string)
    requires i <= |line| && line[i..] == pad + rest && Blanks(pad) && rest != "" && !IsBlank(rest[0])
    ensures SkipBlanks(line, i) == i + |pad| < |line| && line[i + |pad|..] == rest
  {
    var t := line[i..];
    assert forall k :: i <= k < i + |pad| ==> line[k] == t[k - i] == pad[k - i];
    assert line[i + |pad|] == t[|pad|] == rest[0];
    SkipPad(line, i, i + |pad|);
    assert line[i + |pad|..] == t[|pad|..] == rest;
  }

  lemma TailFound(line: string, i: nat, j: nat)
    requires StartsWithIgnoreCase(line, DISPOSITION) && SkipBlanks(line, |DISPOSITION|) == i
    requires StartsWithIgnoreCase(line[i..], FORM_DATA) && SkipBlanks(line, i + |FORM_DATA|) == j
    ensures DispositionTail(line) == Some(line[j..])
  {
  }

  lemma FormFound(rest: string, form: string, behind: string)
    requires rest == form + behind && EqualIgnoreCase(form, FORM_DATA)
    ensures StartsWithIgnoreCase(rest, FORM_DATA) && rest[|FORM_DATA|..] == behind
  {
    assert rest[..|FORM_DATA|] == form;
  }

  lemma Shorter(a: string, b: string)
    requires StartsWithIgnoreCase(a, b)
    ensures |b| <= |a|
  {
  }

  lemma {:induction false} TailBehind(line: string, pad: string, form: string, gap: string, text: string)
    requires StartsWithIgnoreCase(line, DISPOSITION)
    requires line[|DISPOSITION|..] == pad + (form + (gap + text))
    requires EqualIgnoreCase(form, FORM_DATA) && Blanks(pad) && Blanks(gap) && text != "" && !IsBlank(text[0])
    ensures DispositionTail(line) == Some(text)
  {
    hide EqualIgnoreCase, StartsWithIgnoreCase, SkipBlanks, Blanks, DispositionTail;
    var value := form + (gap + text);
    Shorter(line, DISPOSITION);
    FormStart(form);
    assert value[0] == form[0];
    SkipTo(line, |DISPOSITION|, pad, value);
    var q := |DISPOSITION| + |pad|;
    FormFound(line[q..], form, gap + text);
    DropDrop(line, q, |FORM_DATA|);
    SkipTo(line, q + |FORM_DATA|, gap, text);
    TailFound(line, q, q + |FORM_DATA| + |gap|);
  }

  lemma {:induction false} IsDisposition(key: string, tail: string)
    requires ':' !in key && EqualIgnoreCase(key, "Content-Disposition")
    ensures var line := key + ":" + tail;
            StartsWithIgnoreCase(line, DISPOSITION) && line[|DISPOSITION|..] == tail
  {
    hide StartsWithIgnoreCase;
    FixedNames();
    NameDecides(key, tail, "Content-Disposition");
  }

  lemma SameLength(key: string)
    requires EqualIgnoreCase(key, "Content-Disposition")
    ensures |key| + 1 == |DISPOSITION|
  {
  }

  lemma {:induction false} BlankEnd(s: string, i: nat)
    requires i <= |s| && forall k :: i <= k < |s| ==> IsBlank(s[k])
    ensures SkipBlanks(s, i) == |s|
    decreases |s| - i
  {
    if i < |s| { BlankEnd(s, i + 1); }
  }

  lemma NoForm(value: string, post: string)
    requires Blanks(post) && !StartsWithIgnoreCase(value, FORM_DATA)
    ensures !StartsWithIgnoreCase(value + post, FORM_DATA)
  {
    var w, n := value + post, |FORM_DATA|;
    if n <= |w| {
      if n <= |value| {
        assert w[..n] == value[..n];
      } else {
        assert IsBlank(w[|value|]) && w[..n][|value|] == w[|value|];
        assert ToLower(FORM_DATA[|value|]) != ToLower(w[|value|]);
      }
    }
  }

  lemma {:induction false} NoTail(key: string, pad: string, value: string, post: string)
    requires ':' !in key && Blanks(pad) && Blanks(post)
    requires IsFieldValue(value) && !StartsWithIgnoreCase(value, FORM_DATA)
    ensures DispositionTail(key + ":" + pad + value + post).None?
  {
    hide EqualIgnoreCase, StartsWithIgnoreCase;
    var start, line := key + ":", key + ":" + pad + value + post;
    Append3(start, pad, value);
    Append3(start, pad + value, post);
    NameDecides(key, pad + value + post, "Content-Disposition");
    assert DISPOSITION == "Content-Disposition" + ":";
    if EqualIgnoreCase(key, "Content-Disposition") {
      SameLength(key);
      Slots(start, pad, value, post);
      if value == "" {
        BlankEnd(line, |DISPOSITION|);
        assert line[|line|..] == "";
        if StartsWithIgnoreCase("", FORM_DATA) { Shorter("", FORM_DATA); }
      } else {
        var q := |DISPOSITION| + |pad|;
        assert line[q] == value[0];
        SkipPad(line, |DISPOSITION|, q);
        assert line[q..] == value + post;
        NoForm(value, post);
      }
    }
  }

  lemma ParamsStart(ps: seq<Param>)
    requires ps != [] && LegalParams(ps)
    ensures ParamsText(ps, 0) != "" && !IsBlank(ParamsText(ps, 0)[0])
  {
    ParamPadded(ps[0]);
    var text := ParamText(ps[0]);
    assert ParamsText(ps, 0)[0] == text[0];
  }

  lemma GapsBlank(ps: seq<Param>)
    requires LegalParams(ps) && ps != []
    ensures Blanks(ps[0].gap)
  {
    assert LegalParam(ps[0]);
  }

  /** The line of a disposition is read as the parameters it was written from. */
  lemma {:induction false} DispositionLineRead(f: PartField, file: MultipartFormData)
    requires Dispositioned(f)
    ensures PartHeader(LineWith(f, ValueText(f)), file) == ApplyDisposition(Pairs(AllParams(f)), file)
  {
    hide LegalParams, ParamsText, DispositionTail, DispositionParams, ApplyDisposition, IsFieldName, IsFieldValue,
         StartsWithIgnoreCase;
    var ps := AllParams(f);
    var text := ParamsText(ps, 0);
    assert Blanks(ps[0].gap) by { GapsBlank(ps); }
    ParamsStart(ps);
    assert ':' !in f.key by { TokenPlain(f.key); }
    LineIsField(f, ValueText(f));
    var tail := f.pad + ValueText(f) + f.post;
    IsDisposition(f.key, tail);
    Append3(f.key + ":", f.pad, ValueText(f));
    Append3(f.key + ":", f.pad + ValueText(f), f.post);
    assert tail == f.pad + (f.form + (ps[0].gap + (text + f.post))) by {
      Append3(ps[0].gap, text, f.post);
      Append3(f.form, ps[0].gap + text, f.post);
      Append3(f.pad, ValueText(f), f.post);
    }
    TailBehind(LineWith(f, ValueText(f)), f.pad, f.form, ps[0].gap, text + f.post);
    DispositionRead(ps, f.post);
    assert !EqualIgnoreCase(f.key, "Content-Type") by { assert |f.key| == |"Content-Disposition"|; }
  }

  lemma OtherName(line: string)
    requires !StartsWithIgnoreCase(line, DISPOSITION)
    ensures DispositionTail(line).None?
  {
  }

  lemma TypeLength(key: string)
    requires EqualIgnoreCase(key, "Content-Type")
    ensures |key| + 1 == |CONTENT_TYPE|
  {
  }

  lemma ExtendedOnly(f: PartField, more: seq<Param>)
    requires more == [] || (|more| == 1 && more[0].key == "filename*")
    ensures Plainly(more, "name").None? && Plainly(more, "filename").None?
    ensures Plainly(more, "filename*") == if more == [] then None else Some(more[0].value)
  {
    if more != [] {
      assert more[1..] == [];
      assert |"name"| == 4 && |"filename"| == 8 && |"filename*"| == 9;
    }
  }

  lemma {:induction false} DispositionApplied(f: PartField, file: MultipartFormData)
    requires LegalDisposition(f) && Plainly(f.params, "name").Some? && Plainly(f.params, "filename*").None?
    ensures ApplyDisposition(Pairs(AllParams(f)), file) == (true, Meant(f, file))
  {
    hide LegalParams, ExtendedFilename, EqualIgnoreCase, PlainParameter, Plainly;
    var ps := AllParams(f);
    var more := if f.extended.None? then []
                else [Param(f.extended.value.gap, "filename*", ExtendedValue(f.extended.value), false)];
    forall key
      ensures Lookup(Pairs(ps), key)
              == if Plainly(f.params, key).Some? then Plainly(f.params, key) else Plainly(more, key)
    {
      LookupIs(ps, key);
      PlainlyConcat(f.params, more, key);
    }
    ExtendedOnly(f, more);
    if f.extended.Some? { ExtendedRead(f.extended.value); }
  }

  /** What the parser takes from a line is what the line means. */
  lemma {:induction false} FieldRead(f: PartField, file: MultipartFormData)
    requires LegalField(f)
    ensures PartHeader(FieldLine(f), file) == (true, Meant(f, file))
  {
    hide ParsedHeader, StartsWithIgnoreCase, EqualIgnoreCase, DispositionTail, IsFieldName, IsFieldValue, LegalParams,
         ParamsText;
    match f
    case TypeField(key, _, value, _) =>
      LineIsField(f, value);
      TrimmedBehind(f, value);
      assert |key| + 1 == |CONTENT_TYPE| by { TypeLength(key); }
    case OtherField(key, pad, value, post) =>
      LineIsField(f, value);
      assert ':' !in key by { TokenPlain(key); }
      if EqualIgnoreCase(key, "Content-Disposition") {
        NoTail(key, pad, value, post);
      } else {
        assert DispositionTail(FieldLine(f)).None? by { OtherName(FieldLine(f)); }
      }
    case DispositionField(_, _, _, _, _, _) =>
      DispositionLineRead(f, file);
      DispositionApplied(f, file);
  }

  // ----------------------------------------------------------- lines that are refused

  /** A line that is no field, a disposition without a name, and one whose extended file name
      is empty or not in UTF-8. */
  datatype BadLine = NotAField(text: string) | Nameless(f: PartField) | OtherCharset(f: PartField)

  predicate LegalBad(b: BadLine) {
    match b
    case NotAField(text) => ':' !in text || !IsFieldName(text[..IndexOf(text, ':')])
    case Nameless(f) => Dispositioned(f) && f.extended.None? && Plainly(f.params, "name").None?
    case OtherCharset(f) =>
      Dispositioned(f) && f.extended.None? && Plainly(f.params, "name").Some?
      && match Plainly(f.params, "filename*")
         case None => false
         case Some(v) => !StartsWithIgnoreCase(v, UTF8_MARK) || |v| == |UTF8_MARK|
  }

  function BadText(b: BadLine): string
    requires LegalBad(b)
  {
    match b
    case NotAField(text) => text
    case Nameless(f) => LineWith(f, ValueText(f))
    case OtherCharset(f) => LineWith(f, ValueText(f))
  }

  lemma PlainOnly(f: PartField)
    requires f.DispositionField? && f.extended.None?
    ensures AllParams(f) == f.params
  {
  }

  lemma {:induction false} BadRead(b: BadLine, file: MultipartFormData)
    requires LegalBad(b)
    ensures !PartHeader(BadText(b), file).0
  {
    hide LegalParams, EqualIgnoreCase, IsFieldName, IsFieldValue, Plainly, StartsWithIgnoreCase;
    match b
    case NotAField(text) => NoField(text);
    case Nameless(f) =>
      DispositionLineRead(f, file);
      PlainOnly(f);
      LookupIs(f.params, "name");
    case OtherCharset(f) =>
      DispositionLineRead(f, file);
      PlainOnly(f);
      LookupIs(f.params, "name");
      LookupIs(f.params, "filename*");
  }

  // -------------------------------------------------------------------- whole parts

  /** What the first `j` fields of a part mean together. */
  function Described(fields: seq<PartField>, j: nat): MultipartFormData
    requires j <= |fields|
  {
    if j == 0 then NO_FILE else Meant(fields[j - 1], Described(fields, j - 1))
  }

  lemma NameIsThere(f: PartField)
    ensures LegalField(f) && f.DispositionField? ==> Plainly(f.params, "name").Some?
  {
  }

  /** The last disposition decides the name, and the last type the content type, whatever
      stands before, between and behind them. */
  lemma {:induction false} LastDecides(fields: seq<PartField>, d: nat, j: nat)
    requires d < j <= |fields|
    ensures fields[d].TypeField? && (forall i :: d < i < j ==> !fields[i].TypeField?) ==>
              Described(fields, j).contentType == fields[d].value
    ensures fields[d].DispositionField? && LegalField(fields[d])
            && (forall i :: d < i < j ==> !fields[i].DispositionField?) ==>
              Some(Described(fields, j).name) == Plainly(fields[d].params, "name")
    ensures fields[d].DispositionField? && (forall i :: d < i < j ==> !fields[i].DispositionField?) ==>
              Described(fields, j).filename
              == if fields[d].extended.Some? then fields[d].extended.value.name
                 else match Plainly(fields[d].params, "filename")
                      case Some(v) => v
                      case None => Described(fields, d).filename
  {
    hide LegalField;
    assert LegalField(fields[d]) && fields[d].DispositionField? ==> Plainly(fields[d].params, "name").Some? by {
      NameIsThere(fields[d]);
    }
    if d + 1 < j { LastDecides(fields, d, j - 1); }
  }
}
