/** The header lines of one part of a multipart/form-data body (section 4 of RFC 7578):
    how they are written and what the parser takes from them. */
module PartHeaders {
  import opened Bytes
  import opened Fields

  datatype MultipartFormData =
    MultipartFormData(name: string, content: string, filename: string, contentType: string)

  const NO_FILE := MultipartFormData("", "", "", "")

  // ------------------------------------------------------ disposition parameters

  type Params = seq<(string, string)>

  /** The first value entered under a name, as the multimap lookup gives it. */
  function Lookup(params: Params, name: string): Option<string> {
    if params == [] then None
    else if params[0].0 == name then Some(params[0].1)
    else Lookup(params[1..], name)
  }

  /** Key and value of one `key=value` piece: the first `=`-separated part and the last. */
  function KeyValue(kv: string): Option<(string, string)> {
    var parts := Pieces(kv, '=');
    if parts == [] then None
    else Some((WithoutDoubleQuotes(parts[0]),
               WithoutDoubleQuotes(if |parts| == 1 then "" else parts[|parts| - 1])))
  }

  /** The parameters of the `;`-separated pieces from `i` on, identical pieces once. */
  function ParamsFrom(pieces: seq<string>, i: nat): Params
    requires i <= |pieces|
    decreases |pieces| - i
  {
    if i == |pieces| then []
    else ParamAt(pieces, i) + ParamsFrom(pieces, i + 1)
  }

  function DispositionParams(s: string): Params { ParamsFrom(Pieces(s, ';'), 0) }

  method ParseKeyValue(kv: string) returns (r: Option<(string, string)>)
    ensures r == KeyValue(kv)
  {
    var key, val := "", "";
    var parts := Split(kv, '=');
    PiecesNonEmpty(kv, '=', 0);
    for k := 0 to |parts|
      invariant key == if k == 0 then "" else parts[0]
      invariant val == if k < 2 then "" else parts[k - 1]
    {
      if key == "" { key := parts[k]; } else { val := parts[k]; }
    }
    if key == "" { return None; }
    return Some((WithoutDoubleQuotes(key), WithoutDoubleQuotes(val)));
  }

  function ParamAt(pieces: seq<string>, i: nat): Params
    requires i < |pieces|
  {
    if pieces[i] in pieces[..i] || KeyValue(pieces[i]).None? then [] else [KeyValue(pieces[i]).value]
  }

  method AddParam(params: Params, cache: set<string>, kv: string) returns (r: Params)
    ensures r == params + if kv in cache || KeyValue(kv).None? then [] else [KeyValue(kv).value]
  {
    r := params;
    if kv !in cache {
      var p := ParseKeyValue(kv);
      if p.Some? { r := r + [p.value]; }
    }
  }

  method ParseDispositionParams(s: string) returns (params: Params)
    ensures params == DispositionParams(s)
  {
    params := [];
    var cache: set<string> := {};
    var pieces := Split(s, ';');
    ghost var rest := ParamsFrom(pieces, 0);
    for i := 0 to |pieces|
      invariant forall w :: w in cache <==> w in pieces[..i]
      invariant rest == ParamsFrom(pieces, i)
      invariant params + rest == DispositionParams(s)
    {
      Append3(params, ParamAt(pieces, i), ParamsFrom(pieces, i + 1));
      params := AddParam(params, cache, pieces[i]);
      cache := cache + {pieces[i]};
      rest := ParamsFrom(pieces, i + 1);
      TakeNext(pieces, i);
    }
  }

  lemma {:induction false} PiecesNonEmpty(s: string, d: char, i: nat)
    requires i <= |s|
    ensures "" !in PiecesFrom(s, d, i)
    decreases |s| - i
  {
    hide PiecesFrom, TrimmedWindow, IndexFrom;
    var k := IndexFrom(s, d, i);
    PiecesStep(s, d, i, k);
    if k < |s| { PiecesNonEmpty(s, d, k + 1); }
  }

  // -------------------------------------------------------- reading a part header

  const DISPOSITION := "Content-Disposition:"
  const FORM_DATA := "form-data;"
  const CONTENT_TYPE := "Content-Type:"
  const UTF8_MARK := "UTF-8''"

  /** The text captured after `Content-Disposition:` and `form-data;`, each followed by any
      blanks. A line that got this far is a legal field, so it holds no other white space
      and no line break, which is all that separates this from the regular expression. */
  function DispositionTail(header: string): Option<string> {
    if !StartsWithIgnoreCase(header, DISPOSITION) then None
    else
      var i := SkipBlanks(header, |DISPOSITION|);
      if !StartsWithIgnoreCase(header[i..], FORM_DATA) then None
      else Some(header[SkipBlanks(header, i + |FORM_DATA|)..])
  }

  /** The file name of an extended parameter: only the UTF-8 form, and not empty. */
  function ExtendedFilename(v: string): Option<string> {
    if StartsWithIgnoreCase(v, UTF8_MARK) && |v| > |UTF8_MARK| then Some(UrlDecoded(v[|UTF8_MARK|..], false)) else None
  }

  /** The parameters of a disposition line applied to the part; a missing name or a
      bad extended file name stops the parser. */
  function ApplyDisposition(params: Params, file: MultipartFormData): (bool, MultipartFormData) {
    match Lookup(params, "name")
    case None => (false, file)
    case Some(name) =>
      var named := file.(name := name);
      var plain := match Lookup(params, "filename")
                   case None => named
                   case Some(f) => named.(filename := f);
      match Lookup(params, "filename*")
      case None => (true, plain)
      case Some(x) =>
        match ExtendedFilename(x)
        case None => (false, plain)
        case Some(f) => (true, plain.(filename := f))
  }

  /** What one header line does to the part being described; false stops the parser. */
  function PartHeader(header: string, file: MultipartFormData): (bool, MultipartFormData) {
    if ParsedHeader(header).None? then (false, file)
    else if StartsWithIgnoreCase(header, CONTENT_TYPE) then
      (true, file.(contentType := Trimmed(header[|CONTENT_TYPE|..])))
    else match DispositionTail(header)
      case None => (true, file)
      case Some(tail) => ApplyDisposition(DispositionParams(tail), file)
  }

  method ReadPartHeader(header: string, file: MultipartFormData) returns (ok: bool, r: MultipartFormData)
    ensures (ok, r) == PartHeader(header, file)
  {
    r := file;
    var field := ParseHeader(header);
    if field.None? { return false, r; }
    if StartsWithIgnoreCase(header, CONTENT_TYPE) {
      var value := Trim(header[|CONTENT_TYPE|..]);
      return true, r.(contentType := value);
    }
    var tail := DispositionTail(header);
    if tail.None? { return true, r; }
    var params := ParseDispositionParams(tail.value);
    var name := Lookup(params, "name");
    if name.None? { return false, r; }
    r := r.(name := name.value);
    var filename := Lookup(params, "filename");
    if filename.Some? { r := r.(filename := filename.value); }
    var extended := Lookup(params, "filename*");
    if extended.Some? {
      var decoded := ExtendedFilename(extended.value);
      if decoded.None? { return false, r; }
      r := r.(filename := decoded.value);
    }
    return true, r;
  }

  // -------------------------------------------------------- writing a part header

  function Quoted(key: string, v: string): string { key + "=\"" + v + "\"" }

  const DISPOSITION_START := "Content-Disposition: form-data; "

  function ParamText(item: MultipartFormData): string {
    Quoted("name", item.name) + if item.filename == "" then "" else "; " + Quoted("filename", item.filename)
  }

  function DispositionLine(item: MultipartFormData): string { DISPOSITION_START + ParamText(item) }

  function ContentTypeLine(item: MultipartFormData): string { "Content-Type: " + item.contentType }

  /** A name that survives quoting: legal in a field, no parameter separators. */
  predicate PlainParameter(v: string) {
    forall i :: 0 <= i < |v| ==> IsFieldChar(v[i]) && v[i] != ';' && v[i] != '='
  }

  predicate WritableHeaders(item: MultipartFormData) {
    PlainParameter(item.name) && PlainParameter(item.filename) && IsFieldValue(item.contentType)
  }

  // --------------------------------------------------- reading what was written

  predicate Padded(a: string, d: char) { a != "" && d !in a && !IsBlank(a[0]) && !IsBlank(a[|a| - 1]) }

  lemma OnePiece(a: string, d: char)
    requires Padded(a, d)
    ensures Pieces(a, d) == [a]
  {
    assert a[0..|a|] == a;
  }

  lemma {:induction false} TwoPieces(a: string, d: char, pad: string, b: string)
    requires Padded(a, d) && Padded(b, d) && d !in pad && forall i :: 0 <= i < |pad| ==> IsBlank(pad[i])
    requires !IsBlank(d)
    ensures Pieces(a + [d] + pad + b, d) == [a, b]
  {
    hide Trimmed, Pieces;
    var c := pad + b;
    Append3(a + [d], pad, b);
    PiecesCons(a, d, c);
    TrimmedPadded(a, d, "");
    assert "" + a == a;
    assert d !in c;
    PiecesNone(c, d);
    TrimmedPadded(b, d, pad);
    assert Kept(a) + Kept(b) == [a, b];
  }

  lemma TrimmedPadded(a: string, d: char, pad: string)
    requires Padded(a, d) && forall i :: 0 <= i < |pad| ==> IsBlank(pad[i])
    ensures Trimmed(pad + a) == a
  {
    var s := pad + a;
    assert s[|pad|] == a[0] && s[|s| - 1] == a[|a| - 1];
    assert SkipBlanks(s, 0) == |pad|;
    assert s[|pad|..|s|] == a;
  }

  lemma QuotedPadded(key: string, v: string, d: char)
    requires Padded(key, d) && d !in v && d != '=' && d != '"'
    ensures Padded(Quoted(key, v), d)
  {
    var q := Quoted(key, v);
    assert q[0] == key[0] && q[|q| - 1] == '"';
  }

  lemma QuotedKeyValue(key: string, v: string)
    requires Padded(key, '=') && key[0] != '"' && '=' !in v
    ensures KeyValue(Quoted(key, v)) == Some((key, v))
  {
    var b := "\"" + v + "\"";
    TwoPieces(key, '=', "", b);
    assert Quoted(key, v) == key + ['='] + "" + b;
    assert b[1..|b| - 1] == v;
  }

  /** Of several values only the last counts. */
  lemma {:induction false} LastValueCounts(key: string, mid: string, v: string)
    requires Padded(key, '=') && key[0] != '"' && '=' !in mid && Padded(v, '=') && v[0] != '"'
    ensures KeyValue(key + "=" + (mid + "=" + v)) == Some((key, v))
  {
    hide Pieces, Trimmed;
    assert key + "=" + (mid + "=" + v) == key + ['='] + (mid + ['='] + v);
    PiecesCons(key, '=', mid + ['='] + v);
    PiecesCons(mid, '=', v);
    OnePiece(v, '=');
    TrimmedPadded(key, '=', "");
    assert "" + key == key;
    var parts := Kept(key) + (Kept(Trimmed(mid)) + [v]);
    assert parts[|parts| - 1] == v && parts[0] == key;
  }

  lemma ParamsOfOne(n: string, p: (string, string))
    requires KeyValue(n) == Some(p)
    ensures ParamsFrom([n], 0) == [p]
  {
    assert ParamsFrom([n], 1) == [];
  }

  lemma ParamsOfTwo(n: string, f: string, p: (string, string), q: (string, string))
    requires KeyValue(n) == Some(p) && KeyValue(f) == Some(q) && n != f
    ensures ParamsFrom([n, f], 0) == [p, q]
  {
    assert ParamsFrom([n, f], 2) == [];
    assert [n, f][..1] == [n];
    assert ParamsFrom([n, f], 1) == [q];
  }

  function ItemParams(item: MultipartFormData): Params {
    if item.filename == "" then [("name", item.name)] else [("name", item.name), ("filename", item.filename)]
  }

  predicate PlainKey(key: string) { Padded(key, ';') && Padded(key, '=') && key[0] != '"' }

  lemma OneQuoted(key: string, v: string)
    requires PlainKey(key) && PlainParameter(v)
    ensures DispositionParams(Quoted(key, v)) == [(key, v)]
  {
    QuotedPadded(key, v, ';');
    QuotedKeyValue(key, v);
    OnePiece(Quoted(key, v), ';');
    ParamsOfOne(Quoted(key, v), (key, v));
  }

  lemma TwoQuoted(key: string, v: string, key2: string, v2: string)
    requires PlainKey(key) && PlainParameter(v) && PlainKey(key2) && PlainParameter(v2) && key[0] != key2[0]
    ensures DispositionParams(Quoted(key, v) + ("; " + Quoted(key2, v2))) == [(key, v), (key2, v2)]
  {
    var n, f := Quoted(key, v), Quoted(key2, v2);
    QuotedPadded(key, v, ';');
    QuotedPadded(key2, v2, ';');
    QuotedKeyValue(key, v);
    QuotedKeyValue(key2, v2);
    assert n + ("; " + f) == n + [';'] + " " + f;
    TwoPieces(n, ';', " ", f);
    assert n[0] != f[0];
    ParamsOfTwo(n, f, (key, v), (key2, v2));
  }

  lemma WrittenParams(item: MultipartFormData)
    requires WritableHeaders(item)
    ensures DispositionParams(ParamText(item)) == ItemParams(item)
  {
    if item.filename == "" {
      OneQuoted("name", item.name);
      assert Quoted("name", item.name) + "" == Quoted("name", item.name);
    } else {
      TwoQuoted("name", item.name, "filename", item.filename);
    }
  }

  lemma LookupPair(a: (string, string), b: (string, string), key: string)
    ensures Lookup([a], key) == if a.0 == key then Some(a.1) else None
    ensures Lookup([a, b], key) == if a.0 == key then Some(a.1) else if b.0 == key then Some(b.1) else None
  {
    assert [a, b][1..] == [b] && [b][1..] == [];
    assert Lookup([b], key) == if b.0 == key then Some(b.1) else None;
  }

  lemma ItemParamsApplied(item: MultipartFormData, file: MultipartFormData)
    requires file.filename == ""
    ensures ApplyDisposition(ItemParams(item), file) == (true, file.(name := item.name, filename := item.filename))
  {
    var n, f := ("name", item.name), ("filename", item.filename);
    assert |"name"| == 4 && |"filename"| == 8 && |"filename*"| == 9;
    LookupPair(n, f, "name");
    LookupPair(n, f, "filename");
    LookupPair(n, f, "filename*");
  }

  lemma ParamTextEnds(item: MultipartFormData)
    requires PlainParameter(item.name) && PlainParameter(item.filename)
    ensures var t := ParamText(item);
            t != "" && t[0] == 'n' && t[|t| - 1] == '"' && forall i :: 0 <= i < |t| ==> IsFieldChar(t[i])
  {
  }

  /** Whatever starts with a letter after the fixed words is the captured text. */
  lemma DispositionSplit(t: string)
    requires t != "" && t[0] == 'n'
    ensures DispositionTail(DISPOSITION_START + t) == Some(t)
    ensures !StartsWithIgnoreCase(DISPOSITION_START + t, CONTENT_TYPE)
  {
    var line := DISPOSITION_START + t;
    var n := |DISPOSITION|;
    assert line[..n] == DISPOSITION;
    assert line[n] == ' ' && line[n + 1] == 'f';
    assert SkipBlanks(line, n) == n + 1;
    assert line[n + 1..][..|FORM_DATA|] == FORM_DATA;
    assert line[n + 11] == ' ' && line[n + 12] == 'n';
    assert SkipBlanks(line, n + 11) == n + 12;
    assert line[n + 12..] == t;
    assert ToLower(line[..|CONTENT_TYPE|][8]) != ToLower(CONTENT_TYPE[8]);
  }

  lemma {:induction false} DispositionIsField(t: string)
    requires t != "" && t[|t| - 1] == '"' && forall i :: 0 <= i < |t| ==> IsFieldChar(t[i])
    ensures ParsedHeader(DISPOSITION_START + t).Some?
  {
    hide IsFieldName, IsFieldValue, ParsedHeader;
    var key, start := "Content-Disposition", "form-data; ";
    assert DISPOSITION_START + t == key + ": " + (start + t);
    assert IsFieldName(key) by { DispositionName(); }
    assert IsFieldValue(start + t) by { ValueOf(start, t); }
    ParsedHeaderOf(key, start + t);
  }

  lemma DispositionName()
    ensures IsFieldName("Content-Disposition")
  {
  }

  lemma ValueOf(start: string, t: string)
    requires start != "" && IsFieldVchar(start[0]) && forall i :: 0 <= i < |start| ==> IsFieldChar(start[i])
    requires t != "" && IsFieldVchar(t[|t| - 1]) && forall i :: 0 <= i < |t| ==> IsFieldChar(t[i])
    ensures IsFieldValue(start + t)
  {
    assert (start + t)[0] == start[0] && (start + t)[|start + t| - 1] == t[|t| - 1];
  }

  lemma DispositionApplies(header: string, tail: string, file: MultipartFormData)
    ensures ParsedHeader(header).Some? && !StartsWithIgnoreCase(header, CONTENT_TYPE)
            && DispositionTail(header) == Some(tail) ==>
              PartHeader(header, file) == ApplyDisposition(DispositionParams(tail), file)
  {
  }

  /** The disposition line gives back the name and the file name, and nothing else. */
  lemma ReadDisposition(item: MultipartFormData)
    requires WritableHeaders(item)
    ensures PartHeader(DispositionLine(item), NO_FILE) ==
            (true, NO_FILE.(name := item.name, filename := item.filename))
  {
    ParamTextEnds(item);
    DispositionIsField(ParamText(item));
    DispositionSplit(ParamText(item));
    WrittenParams(item);
    DispositionApplies(DispositionLine(item), ParamText(item), NO_FILE);
    ItemParamsApplied(item, NO_FILE);
  }

  lemma TrimmedValue(key: string, v: string)
    requires IsFieldValue(v)
    ensures Trimmed((key + ": " + v)[|key| + 1..]) == v
  {
    var w := (key + ": " + v)[|key| + 1..];
    assert w == " " + v;
    if v != "" {
      assert w[1] == v[0] && w[|w| - 1] == v[|v| - 1];
      assert SkipBlanks(w, 0) == 1;
      assert w[1..|w|] == v;
    }
  }

  lemma ReadContentType(item: MultipartFormData, file: MultipartFormData)
    requires WritableHeaders(item)
    ensures PartHeader(ContentTypeLine(item), file) == (true, file.(contentType := item.contentType))
  {
    var line := ContentTypeLine(item);
    var key := "Content-Type";
    assert line == key + ": " + item.contentType;
    ParsedHeaderOf(key, item.contentType);
    TrimmedValue(key, item.contentType);
    assert line[..|CONTENT_TYPE|] == CONTENT_TYPE;
  }
}
