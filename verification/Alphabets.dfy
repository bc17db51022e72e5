/** The byte classes and digit tables of the library, against the ones of the standards. */
module Alphabets {
  import opened Bytes
  import opened Fields
  import ChunkSizes
  import Query
  import Base64

  predicate Visible(c: char) { '!' <= c <= '~' }

  /** Section 5.6.2 of RFC 9110: a token character is visible and no delimiter. */
  lemma TokenIff(c: char)
    ensures IsTokenChar(c) <==> Visible(c) && c !in "\"(),/:;<=>?@[\\]{}"
  {
  }

  /** Section 5.5 of RFC 9110: a field character is visible or not in ASCII. */
  lemma FieldIff(c: char)
    ensures IsFieldVchar(c) <==> c > ' ' && c != '\U{7F}'
    ensures IsFieldChar(c) <==> IsFieldVchar(c) || c == ' ' || c == '\t'
  {
  }

  /** The encoder keeps the visible characters but these. */
  lemma KeptIff(c: char)
    ensures Query.KeptByEncoding(c) <==> Visible(c) && c !in "\"#$%&+,/:;<=>?@[\\]^`{|}"
  {
  }

  lemma LowerIff(c: char)
    ensures ToLower(c) == 'a' <==> c == 'A' || c == 'a'
    ensures ToLower(c) == 'z' <==> c == 'Z' || c == 'z'
    ensures 'A' <= c <= 'Z' ==> ToLower(c) as int - 'a' as int == c as int - 'A' as int
    ensures c < 'A' || 'Z' < c < '\U{80}' ==> ToLower(c) == c
  {
  }

  /** Sixteen digits, in two cases. */
  lemma HexTables(d: nat)
    requires d < 16
    ensures ChunkSizes.HexChar(d) == "0123456789abcdef"[d] && Query.UpperHex(d) == "0123456789ABCDEF"[d]
    ensures HexDigit(ChunkSizes.HexChar(d)) == Some(d) && HexDigit(Query.UpperHex(d)) == Some(d)
  {
    ChunkSizes.HexCharValue(d);
  }

  /** No other character is one. */
  lemma NoOtherHex(c: char)
    ensures HexDigit(c).Some? ==>
              c == ChunkSizes.HexChar(HexDigit(c).value) || c == Query.UpperHex(HexDigit(c).value)
  {
  }

  /** Section 4 of RFC 4648. */
  lemma Base64Table(d: nat)
    ensures d < 26 ==> Base64.Char64(d) == "ABCDEFGHIJKLMNOPQRSTUVWXYZ"[d]
    ensures d < 26 ==> Base64.Char64(26 + d) == "abcdefghijklmnopqrstuvwxyz"[d]
    ensures d < 10 ==> Base64.Char64(52 + d) == "0123456789"[d]
    ensures Base64.Char64(62) == '+' && Base64.Char64(63) == '/'
  {
  }
}
