/** Writing a multipart/form-data body (section 5.1.1 of RFC 2046). */
module MultipartSerializer {
  import opened Bytes
  import opened PartHeaders
  import opened MultipartParser

  function TypePart(item: MultipartFormData): string {
    if item.contentType == "" then "" else ContentTypeLine(item) + CRLF
  }

  /** The header lines of a part with the empty line that ends them. */
  function HeaderBlock(item: MultipartFormData): string {
    DispositionLine(item) + CRLF + (TypePart(item) + CRLF)
  }

  function ItemBegin(item: MultipartFormData, boundary: string): string {
    DASH + boundary + CRLF + HeaderBlock(item)
  }

  function Finish(boundary: string): string { DASH + boundary + DASH + CRLF }

  function SerializedFrom(items: seq<MultipartFormData>, n: nat, boundary: string, finish: bool): string
    requires n <= |items|
    decreases |items| - n
  {
    if n == |items| then (if finish then Finish(boundary) else "")
    else ItemBegin(items[n], boundary) + (items[n].content + CRLF) + SerializedFrom(items, n + 1, boundary, finish)
  }

  function Serialized(items: seq<MultipartFormData>, boundary: string, finish: bool): string {
    SerializedFrom(items, 0, boundary, finish)
  }

  method SerializeItemBegin(item: MultipartFormData, boundary: string) returns (body: string)
    ensures body == ItemBegin(item, boundary)
  {
    body := DASH + boundary + CRLF;
    var headers := DispositionText(item);
    hide DispositionLine, ContentTypeLine;
    headers := headers + CRLF;
    if item.contentType != "" {
      var line := ContentTypeText(item);
      headers := headers + (line + CRLF);
    }
    headers := headers + CRLF;
    Append3(DispositionLine(item) + CRLF, TypePart(item), CRLF);
    body := body + headers;
  }

  method DispositionText(item: MultipartFormData) returns (line: string)
    ensures line == DispositionLine(item)
  {
    line := "Content-Disposition: form-data; name=\"" + item.name + "\"";
    if item.filename != "" { line := line + "; filename=\"" + item.filename + "\""; }
  }

  method ContentTypeText(item: MultipartFormData) returns (line: string)
    ensures line == ContentTypeLine(item)
  {
    line := "Content-Type: " + item.contentType;
  }

  method SerializeMultipartFormdata(items: seq<MultipartFormData>, boundary: string, finish: bool)
    returns (body: string)
    ensures body == Serialized(items, boundary, finish)
  {
    hide ItemBegin;
    body := "";
    ghost var rest := Serialized(items, boundary, finish);
    for n := 0 to |items|
      invariant rest == SerializedFrom(items, n, boundary, finish)
      invariant body + rest == Serialized(items, boundary, finish)
    {
      var begin := SerializeItemBegin(items[n], boundary);
      var content := items[n].content + CRLF;
      rest := SerializedFrom(items, n + 1, boundary, finish);
      Append3(body, begin + content, rest);
      Append3(body, begin, content);
      body := body + begin;
      body := body + content;
    }
    if finish { body := body + Finish(boundary); }
  }

  // ------------------------------------------ the same body, cut at the delimiters

  /** What follows the first `--boundary` of the items from `n` on: the body between two
      delimiters belongs to one item, and `--` closes the last. */
  function TailFrom(items: seq<MultipartFormData>, n: nat, boundary: string): string
    requires n <= |items|
    decreases |items| - n
  {
    if n == |items| then DASH + CRLF
    else CRLF + (HeaderBlock(items[n]) + AfterHeaders(items, n, boundary))
  }

  function AfterHeaders(items: seq<MultipartFormData>, n: nat, boundary: string): string
    requires n < |items|
    decreases |items| - n, 1
  {
    items[n].content + Delimiter(boundary) + TailFrom(items, n + 1, boundary)
  }

  lemma Regroup(dash: string, b: string, crlf: string, block: string, content: string, tail: string)
    ensures dash + b + crlf + block + (content + crlf) + (dash + b + tail) ==
            dash + b + (crlf + (block + (content + (crlf + dash + b) + tail)))
  {
  }

  lemma {:induction false} SerializedIsDelimited(items: seq<MultipartFormData>, n: nat, boundary: string)
    requires n <= |items|
    ensures SerializedFrom(items, n, boundary, true) == DASH + boundary + TailFrom(items, n, boundary)
    decreases |items| - n
  {
    hide HeaderBlock;
    if n < |items| {
      SerializedIsDelimited(items, n + 1, boundary);
      Regroup(DASH, boundary, CRLF, HeaderBlock(items[n]), items[n].content, TailFrom(items, n + 1, boundary));
    } else {
      Append3(DASH + boundary, DASH, CRLF);
    }
  }
}
