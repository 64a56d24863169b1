/**
 * MIME and HTTP header maps, as net/http's `Header` and net/textproto's
 * `MIMEHeader` keep them: a map from canonical key to the list of values,
 * where `Add` canonicalises the key before appending.  Both the SOAP header
 * tables and the mail part headers are built this way.
 */
module MimeHeader {

  type Header = map<string, seq<string>>

  const ContentTypeKey := "Content-Type"

  /** A character allowed in a header field name (a `token` character of RFC 7230, section 3.2.6). */
  predicate IsTokenChar(c: char)
  {
    || ('a' <= c <= 'z') || ('A' <= c <= 'Z') || ('0' <= c <= '9')
    || c == '!' || c == '#' || c == '$' || c == '%' || c == '&' || c == '\'' || c == '*'
    || c == '+' || c == '-' || c == '.' || c == '^' || c == '_' || c == '`' || c == '|' || c == '~'
  }

  /** A string made of token characters only: a key `Add` will canonicalise. */
  predicate IsToken(s: string)
  {
    forall i :: 0 <= i < |s| ==> IsTokenChar(s[i])
  }

  function ToUpper(c: char): char
  {
    if 'a' <= c <= 'z' then (c as int - 32) as char else c
  }

  function ToLower(c: char): char
  {
    if 'A' <= c <= 'Z' then (c as int + 32) as char else c
  }

  /** The character at `i` of the canonical form: upper case at the start of a `-`-separated word, lower case elsewhere. */
  function CanonicalChar(s: string, i: nat): char
    requires i < |s|
  {
    if i == 0 || s[i - 1] == '-' then ToUpper(s[i]) else ToLower(s[i])
  }

  /**
   * The canonical form of a header key: unchanged when some character is not
   * a token character, otherwise every word capitalised ("SOAPAction" becomes
   * "Soapaction", "content-type" becomes "Content-Type").
   */
  function CanonicalKey(s: string): (r: string)
    ensures |r| == |s|
  {
    if IsToken(s) then seq(|s|, i requires 0 <= i < |s| => CanonicalChar(s, i)) else s
  }

  lemma TokenConcat(a: string, b: string)
    requires IsToken(a) && IsToken(b)
    ensures IsToken(a + b)
  {
    var s := a + b;
    forall i | 0 <= i < |s| ensures IsTokenChar(s[i]) {
      if i >= |a| { assert s[i] == b[i - |a|]; }
    }
  }

  /** Canonicalising works word by word: a key splits after any `-`. */
  lemma CanonicalKeyConcat(a: string, b: string)
    requires a != [] && a[|a| - 1] == '-'
    requires IsToken(a) && IsToken(b)
    ensures IsToken(a + b)
    ensures CanonicalKey(a + b) == CanonicalKey(a) + CanonicalKey(b)
  {
    TokenConcat(a, b);
    var s := a + b;
    var ca, cb := CanonicalKey(a), CanonicalKey(b);
    forall i | 0 <= i < |s|
      ensures CanonicalChar(s, i) == (ca + cb)[i]
    {
      if i < |a| {
        assert s[i] == a[i] && (i > 0 ==> s[i - 1] == a[i - 1]);
        assert CanonicalChar(s, i) == CanonicalChar(a, i);
      } else {
        var k := i - |a|;
        assert s[i] == b[k];
        assert k > 0 ==> s[i - 1] == b[k - 1];
        assert CanonicalChar(s, i) == CanonicalChar(b, k);
      }
    }
  }

  /** `h.Add(key, value)`: appends `value` to the values of the canonical key. */
  function Add(h: Header, key: string, value: string): (r: Header)
    ensures r.Keys == h.Keys + {CanonicalKey(key)}
    ensures r[CanonicalKey(key)] == (if CanonicalKey(key) in h then h[CanonicalKey(key)] else []) + [value]
    ensures forall k :: k in h && k != CanonicalKey(key) ==> r[k] == h[k]
  {
    var ck := CanonicalKey(key);
    h[ck := (if ck in h then h[ck] else []) + [value]]
  }

}
