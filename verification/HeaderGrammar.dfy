/** Header blocks as any peer may write them, with blanks around the values, and those the
    reader refuses. */
module HeaderGrammar {
  import opened Bytes
  import opened Fields
  import opened Lines
  import opened HeaderBlocks

  datatype WireField = WireField(key: string, pad: string, value: string, post: string)

  function WireText(f: WireField): string { f.key + ":" + f.pad + f.value + f.post }

  predicate LegalWire(f: WireField) {
    && IsFieldName(f.key) && Blanks(f.pad) && IsFieldValue(f.value) && Blanks(f.post)
    && |WireText(f)| + 2 <= 8192
  }

  /** Its header: the value is decoded, except for two fields. */
  function HeaderOf(f: WireField): Header {
    (f.key, if EqualIgnoreCase(f.key, "Location") || EqualIgnoreCase(f.key, "Referer") then f.value
            else UrlDecoded(f.value, false))
  }

  function WireLines(fields: seq<WireField>, n: nat): string
    requires n <= |fields|
    decreases |fields| - n
  {
    if n == |fields| then "" else WireText(fields[n]) + CRLF + WireLines(fields, n + 1)
  }

  function HeadersOf(fields: seq<WireField>, n: nat): seq<Header>
    requires n <= |fields|
    decreases |fields| - n
  {
    if n == |fields| then [] else [HeaderOf(fields[n])] + HeadersOf(fields, n + 1)
  }

  lemma WireClean(f: WireField)
    requires LegalWire(f)
    ensures '\r' !in WireText(f) && WireText(f) != ""
  {
  }

  lemma {:induction false} ReadWire(f: WireField, rest: string, before: seq<Header>)
    requires LegalWire(f)
    ensures ReadBlock(WireText(f) + CRLF + rest, before) == ReadBlock(rest, before + [HeaderOf(f)])
  {
    hide EqualIgnoreCase, UrlDecoded, ParsedHeader, IsFieldName, IsFieldValue, LineAt, Classified;
    WireClean(f);
    LineOf(WireText(f), rest);
    ParsedPadded(f.key, f.pad, f.value, f.post);
    ClassifiedField(WireText(f), HeaderOf(f));
  }

  lemma {:induction false} ReadWires(fields: seq<WireField>, n: nat, more: string, before: seq<Header>)
    requires n <= |fields| && forall i :: 0 <= i < |fields| ==> LegalWire(fields[i])
    ensures ReadBlock(WireLines(fields, n) + more, before) == ReadBlock(more, before + HeadersOf(fields, n))
    decreases |fields| - n
  {
    hide ReadBlock, LegalWire, HeaderOf, WireText;
    if n == |fields| {
      assert "" + more == more && before + [] == before;
    } else {
      Append3(WireText(fields[n]) + CRLF, WireLines(fields, n + 1), more);
      ReadWire(fields[n], WireLines(fields, n + 1) + more, before);
      ReadWires(fields, n + 1, more, before + [HeaderOf(fields[n])]);
      Append3(before, [HeaderOf(fields[n])], HeadersOf(fields, n + 1));
    }
  }

  /** A whole block is consumed exactly, and gives its fields in order. */
  lemma {:induction false} WireBlockRead(fields: seq<WireField>, rest: string, before: seq<Header>)
    requires forall i :: 0 <= i < |fields| ==> LegalWire(fields[i])
    ensures ReadBlock(WireLines(fields, 0) + (CRLF + rest), before)
            == HeadersRead(true, before + HeadersOf(fields, 0), rest)
  {
    hide ReadBlock, LegalWire;
    ReadWires(fields, 0, CRLF + rest, before);
    ReadBlank(rest, before + HeadersOf(fields, 0));
  }

  /** A line that is too long, or that is no field. */
  predicate BadHeaderLine(line: string) {
    && line != "" && '\r' !in line && |line| + 2 <= 32768
    && (|line| + 2 > 8192 || ':' !in line || !IsFieldName(line[..IndexOf(line, ':')]))
  }

  /** A block with such a line is refused, whatever follows. */
  lemma {:induction false} WireBlockRefused(fields: seq<WireField>, line: string, rest: string, before: seq<Header>)
    requires (forall i :: 0 <= i < |fields| ==> LegalWire(fields[i])) && BadHeaderLine(line)
    ensures ReadBlock(WireLines(fields, 0) + (line + CRLF + rest), before)
            == HeadersRead(false, before + HeadersOf(fields, 0), rest)
  {
    hide LegalWire, ParsedHeader, IsFieldName, LineAt;
    ReadWires(fields, 0, line + CRLF + rest, before);
    LineOf(line, rest);
    if |line| + 2 <= 8192 { NoField(line); }
    assert (line + CRLF)[|line|..] == CRLF && (line + CRLF)[..|line|] == line;
  }

  /** A block that is cut short anywhere is refused. */
  lemma {:induction false} WireBlockCut(fields: seq<WireField>, n: nat, m: nat, before: seq<Header>)
    requires n <= |fields| && forall i :: 0 <= i < |fields| ==> LegalWire(fields[i])
    requires m < |WireLines(fields, n) + CRLF|
    ensures !ReadBlock((WireLines(fields, n) + CRLF)[..m], before).ok
    decreases |fields| - n
  {
    hide LegalWire, HeaderOf, WireText, LineAt, Classified;
    if n == |fields| {
      PartOfLine("", m, before);
      assert WireLines(fields, n) + CRLF == "" + CRLF;
    } else {
      var line, more := WireText(fields[n]) + CRLF, WireLines(fields, n + 1) + CRLF;
      assert LegalWire(fields[n]) ==> |line| <= 8192 by { WireFits(fields[n]); }
      WireClean(fields[n]);
      Append3(line, WireLines(fields, n + 1), CRLF);
      if m < |line| {
        assert (line + more)[..m] == line[..m];
        PartOfLine(WireText(fields[n]), m, before);
      } else {
        assert (line + more)[..m] == line + more[..m - |line|];
        ReadWire(fields[n], more[..m - |line|], before);
        WireBlockCut(fields, n + 1, m - |line|, before + [HeaderOf(fields[n])]);
      }
    }
  }

  lemma WireFits(f: WireField)
    ensures LegalWire(f) ==> |WireText(f) + CRLF| <= 8192
  {
  }

  lemma {:induction false} PartOfLine(text: string, m: nat, before: seq<Header>)
    requires '\r' !in text && m < |text| + 2 && |text| + 2 <= 32768
    ensures !ReadBlock((text + CRLF)[..m], before).ok
  {
    hide ParsedHeader;
    var s := (text + CRLF)[..m];
    forall j: nat ensures !OccursAt(s, CRLF, j) {
      if j + 2 <= |s| { assert s[j..j + 2][0] == s[j] == text[j]; }
    }
    FindNone(s, CRLF);
    assert s[..|s|] == s && s[|s|..] == "";
    assert |s| >= 2 ==> s[|s| - 2..][0] == text[|s| - 2];
    assert !ReadBlock("", before).ok;
  }
}
