/**
 * Message composition of net/email/mail.go: the header block written after
 * the SMTP DATA command, the plain-text body, and the multipart/mixed body
 * with one part per attachment.  The SMTP session, the socket writes and the
 * reading and base64 encoding of attachment files are not modelled; whether
 * a file can be read is an oracle, and the multipart boundary is an input.
 */
module Mail {
  import opened Wrappers
  import MimeHeader

  // ---------------------------------------------------------------------
  // Constants and data model
  // ---------------------------------------------------------------------

  const CRLF := "\r\n"

  // Long literals below are written as concatenations of shorter pieces: the
  // verifier evaluates facts about a literal (such as `'\r' !in s`) cheaply
  // only for short ones.  The text is the same.

  /** The content-type line of a plain-text message (`header`). */
  const PlainContentType := "Content-Type: text/plain;" + " charset=utf-8; format=flowed"
  const PlainHeader := PlainContentType + CRLF

  /** The first two header lines of a multipart message (`headerMP`); the second is folded onto the boundary line. */
  const MimeVersionLine := "MIME-Version: 1.0"
  const MultipartContentType := "Content-Type: multipart/mixed;"
  const MultipartHeader := MimeVersionLine + CRLF + MultipartContentType + CRLF
  const ContentLanguageLine := "Content-Language: en-US"

  /**
   * The part header keys, written word by word: "Content-Description",
   * "Content-Transfer-Encoding", "Content-Disposition".  Canonicalising a long
   * literal key outright is costly for the verifier, so these keys are shown
   * canonical one word at a time (`MimeHeader.CanonicalKeyConcat`).
   */
  const DescriptionKey := "Content-" + "Description"
  const TransferEncodingKey := "Content-" + ("Transfer-" + "Encoding")
  const DispositionKey := "Content-" + "Disposition"

  datatype EMail = EMail(
    host: string, user: string, key: string, port: int,
    from: string, to: seq<string>, subject: string, msg: string,
    attachments: Option<seq<string>>)   // None is a nil slice

  /** What an attachment part holds: its file in base64, or nothing when the file could not be read. */
  datatype Content = Base64Of(file: string) | NoContent

  /**
   * One part of a multipart body: the text part, or the part of the
   * attachment at `path`.  A part is created before its file is read, so an
   * unreadable file still leaves a part, with no content.
   */
  datatype Part = TextPart(text: string) | FilePart(path: string, content: Content)
  {
    /** The header map the part is created with. */
    function Header(): MimeHeader.Header
    {
      match this
      case TextPart(_) => TextPartHeader()
      case FilePart(path, _) => AttachmentHeader(DisplayName(path))
    }
  }

  datatype MailError = ReadFailed(file: string)

  /** The parts the multipart writer created, and the error that stopped the loop, if any. */
  datatype PartsOutcome = PartsOutcome(parts: seq<Part>, err: Option<MailError>)

  /** What `EMailSend` writes after DATA: the header block, then one of the two bodies. */
  datatype Body = PlainBody(text: string) | MultipartBody(preamble: string, parts: seq<Part>)

  datatype Message = Message(header: string, body: Body)

  // ---------------------------------------------------------------------
  // Lines
  // ---------------------------------------------------------------------

  /** Each line followed by CRLF. */
  function Terminated(lines: seq<string>): string
    decreases |lines|
  {
    if lines == [] then "" else lines[0] + CRLF + Terminated(lines[1..])
  }

  predicate NoCR(s: string)
  {
    '\r' !in s
  }

  /** A header section: the lines before the first empty line, and the body after it. */
  datatype Split = Split(headers: seq<string>, body: string)

  /** The index of the first CR in `s`, or `|s|` when there is none. */
  function FirstCR(s: string): (i: nat)
    ensures i <= |s|
    ensures i < |s| ==> s[i] == '\r'
    ensures forall j :: 0 <= j < i ==> s[j] != '\r'
    decreases |s|
  {
    if s == [] || s[0] == '\r' then 0 else 1 + FirstCR(s[1..])
  }

  /**
   * Reads a message as RFC 5322, section 2.1 lays it out: CRLF-terminated
   * header lines, an empty line, then the body.  None when the text has no
   * empty line.
   */
  function SplitHeaders(s: string): Option<Split>
    decreases |s|
  {
    var i := FirstCR(s);
    if i + 1 < |s| && s[i + 1] == '\n' then
      if i == 0 then Some(Split([], s[2..]))
      else match SplitHeaders(s[i + 2..])
        case None => None
        case Some(sp) => Some(Split([s[..i]] + sp.headers, sp.body))
    else None
  }

  lemma {:induction false} TerminatedAppend(xs: seq<string>, ys: seq<string>)
    ensures Terminated(xs + ys) == Terminated(xs) + Terminated(ys)
    decreases |xs|
  {
    if xs == [] {
      assert xs + ys == ys;
    } else {
      assert (xs + ys)[0] == xs[0] && (xs + ys)[1..] == xs[1..] + ys;
      TerminatedAppend(xs[1..], ys);
    }
  }

  lemma FirstCRAfterLine(line: string, rest: string)
    requires NoCR(line)
    ensures FirstCR(line + rest) == |line| + FirstCR(rest)
    decreases |line|
  {
    if line != [] {
      assert (line + rest)[1..] == line[1..] + rest;
      FirstCRAfterLine(line[1..], rest);
    } else {
      assert line + rest == rest;
    }
  }

  /** Non-empty header lines free of CR come back unchanged, and so does any body after the empty line. */
  lemma {:induction false} SplitTerminated(lines: seq<string>, body: string)
    requires forall i :: 0 <= i < |lines| ==> lines[i] != "" && NoCR(lines[i])
    ensures SplitHeaders(Terminated(lines) + (CRLF + body)) == Some(Split(lines, body))
    decreases |lines|
  {
    if lines == [] {
      assert Terminated(lines) == "";
      assert "" + (CRLF + body) == CRLF + body;
      SplitEmptyLine(body);
    } else {
      var l, tail := lines[0], lines[1..];
      assert forall i :: 0 <= i < |tail| ==> tail[i] != "" && NoCR(tail[i]) by {
        forall i | 0 <= i < |tail| ensures tail[i] != "" && NoCR(tail[i]) {
          assert tail[i] == lines[i + 1];
        }
      }
      SplitTerminated(tail, body);
      var rest := Terminated(tail) + (CRLF + body);
      TerminatedCons(lines, CRLF + body);
      SplitAfterLine(l, rest);
      assert [l] + tail == lines;
    }
  }

  lemma TerminatedCons(lines: seq<string>, after: string)
    requires lines != []
    ensures Terminated(lines) + after == lines[0] + CRLF + (Terminated(lines[1..]) + after)
  {
  }

  /** With no header lines, the text starts with the empty line and the body follows it. */
  lemma SplitEmptyLine(body: string)
    ensures SplitHeaders(CRLF + body) == Some(Split([], body))
  {
    var s := CRLF + body;
    assert FirstCR(s) == 0;
    assert s[2..] == body;
  }

  /** A non-empty line free of CR, then CRLF: the line is the first header, and reading goes on after the CRLF. */
  lemma SplitAfterLine(l: string, rest: string)
    requires l != "" && NoCR(l)
    ensures SplitHeaders(l + CRLF + rest)
            == match SplitHeaders(rest)
               case None => None
               case Some(sp) => Some(Split([l] + sp.headers, sp.body))
  {
    var s := l + CRLF + rest;
    assert s == l + (CRLF + rest);
    FirstCRAfterLine(l, CRLF + rest);
    assert FirstCR(CRLF + rest) == 0;
    var i := FirstCR(s);
    assert i == |l| && i > 0;
    assert s[i] == '\r' && s[i + 1] == '\n';
    assert s[..i] == l;
    assert s[i + 2..] == rest;
  }

  // ---------------------------------------------------------------------
  // prepareData: the header block
  // ---------------------------------------------------------------------

  function CcLines(recipients: seq<string>): (r: seq<string>)
    ensures |r| == |recipients|
    ensures forall i :: 0 <= i < |r| ==> r[i] == "Cc: " + recipients[i]
  {
    seq(|recipients|, i requires 0 <= i < |recipients| => "Cc: " + recipients[i])
  }

  /** The lines of the header block: the first recipient in To, every other one in Cc, then From and Subject. */
  function HeaderLines(m: EMail): (r: seq<string>)
    requires |m.to| >= 1
    ensures |r| == |m.to| + 2
    ensures r[0] == "To: " + m.to[0]
    ensures forall i :: 1 <= i < |m.to| ==> r[i] == "Cc: " + m.to[i]
    ensures r[|m.to|] == "From: " + m.from && r[|m.to| + 1] == "Subject: " + m.subject
  {
    ["To: " + m.to[0]] + CcLines(m.to[1..]) + ["From: " + m.from, "Subject: " + m.subject]
  }

  /** `prepareData`: builds the header block by appending one line per recipient after the first. */
  method PrepareData(m: EMail) returns (str: string)
    requires |m.to| >= 1
    ensures str == Terminated(HeaderLines(m))
  {
    var first := ["To: " + m.to[0]];
    str := "To: " + m.to[0] + CRLF;
    var rest := m.to[1..];
    var j := 0;
    assert CcLines(rest[..0]) == [];
    assert first + CcLines(rest[..0]) == first;
    TerminatedOne("To: " + m.to[0]);
    while j < |rest|
      invariant 0 <= j <= |rest|
      invariant str == Terminated(first + CcLines(rest[..j]))
    {
      var done := first + CcLines(rest[..j]);
      assert first + CcLines(rest[..j + 1]) == done + ["Cc: " + rest[j]];
      TerminatedAppend(done, ["Cc: " + rest[j]]);
      TerminatedOne("Cc: " + rest[j]);
      str := str + ("Cc: " + rest[j] + CRLF);
      j := j + 1;
    }
    assert rest[..j] == rest;
    var lines := first + CcLines(rest);
    var tail := ["From: " + m.from, "Subject: " + m.subject];
    assert HeaderLines(m) == lines + tail;
    TerminatedAppend(lines, tail);
    TerminatedTwo("From: " + m.from, "Subject: " + m.subject);
    str := str + ("From: " + m.from + CRLF);
    str := str + ("Subject: " + m.subject + CRLF);
  }

  lemma TerminatedOne(a: string)
    ensures Terminated([a]) == a + CRLF
  {
    assert [a][1..] == [];
  }

  lemma TerminatedTwo(a: string, b: string)
    ensures Terminated([a, b]) == a + CRLF + (b + CRLF)
  {
    assert [a, b][1..] == [b];
    TerminatedOne(b);
  }

  // ---------------------------------------------------------------------
  // data: the plain-text body
  // ---------------------------------------------------------------------

  /** `data`: the plain content type, an empty line, then the message text. */
  function Data(m: EMail): (s: string)
    ensures |s| == |PlainHeader| + 2 + |m.msg|
    ensures s[|s| - |m.msg|..] == m.msg
  {
    var s := PlainHeader + CRLF + m.msg;
    assert s[|s| - |m.msg|..] == m.msg;
    s
  }

  /**
   * A plain message reads back as its header lines followed by the content
   * type, and a body that is exactly the message text, whatever it holds.
   */
  lemma PlainMessageRoundTrip(m: EMail)
    requires |m.to| >= 1
    requires forall i :: 0 <= i < |m.to| ==> NoCR(m.to[i])
    requires NoCR(m.from) && NoCR(m.subject)
    ensures SplitHeaders(Terminated(HeaderLines(m)) + Data(m))
            == Some(Split(HeaderLines(m) + [PlainContentType], m.msg))
  {
    var lines := HeaderLines(m) + [PlainContentType];
    TerminatedAppend(HeaderLines(m), [PlainContentType]);
    TerminatedOne(PlainContentType);
    assert Terminated(HeaderLines(m)) + Data(m) == Terminated(lines) + (CRLF + m.msg);
    PlainContentTypeLine();
    forall i | 0 <= i < |lines|
      ensures lines[i] != "" && NoCR(lines[i])
    {
      if i == 0 {
        PrefixedLine("To: ", m.to[0]);
      } else if i < |m.to| {
        PrefixedLine("Cc: ", m.to[i]);
      } else if i == |m.to| {
        PrefixedLine("From: ", m.from);
      } else if i == |m.to| + 1 {
        PrefixedLine("Subject: ", m.subject);
      }
    }
    SplitTerminated(lines, m.msg);
  }

  lemma PrefixedLine(prefix: string, value: string)
    requires prefix != "" && NoCR(prefix) && NoCR(value)
    ensures prefix + value != "" && NoCR(prefix + value)
  {
    var l := prefix + value;
    forall i | 0 <= i < |l| ensures l[i] != '\r' {
      if i < |prefix| { assert l[i] == prefix[i]; } else { assert l[i] == value[i - |prefix|]; }
    }
  }

  lemma PlainContentTypeLine()
    ensures PlainContentType != "" && NoCR(PlainContentType)
  {
  }

  // ---------------------------------------------------------------------
  // dataMP: the multipart body
  // ---------------------------------------------------------------------

  /** The multipart preamble: MIME version, content type with the writer's boundary, language, an empty line. */
  function Preamble(boundary: string): (p: string)
    ensures p == Terminated([MimeVersionLine, MultipartContentType, " boundary=\"" + boundary + "\"", ContentLanguageLine]) + CRLF
  {
    FourLines(MimeVersionLine, MultipartContentType, " boundary=\"", boundary, "\"", ContentLanguageLine);
    MultipartHeader + " boundary=\"" + boundary + "\"" + CRLF + ContentLanguageLine + CRLF + CRLF
  }

  /**
   * The preamble is a header section of four lines, the boundary parameter
   * sitting on a folded continuation of the content type, with an empty body.
   */
  lemma PreambleRoundTrip(boundary: string)
    requires NoCR(boundary)
    ensures SplitHeaders(Preamble(boundary))
            == Some(Split([MimeVersionLine, MultipartContentType, " boundary=\"" + boundary + "\"", ContentLanguageLine], ""))
  {
    var b := " boundary=\"" + boundary + "\"";
    var lines := [MimeVersionLine, MultipartContentType, b, ContentLanguageLine];
    assert Preamble(boundary) == Terminated(lines) + (CRLF + "");
    PreambleLines();
    PrefixedLine(" boundary=\"", boundary);
    PrefixedLine(" boundary=\"" + boundary, "\"");
    SplitTerminated(lines, "");
  }

  /** The layout of a four-line header section followed by its empty line, for any strings. */
  lemma FourLines(a: string, c: string, open: string, v: string, close: string, d: string)
    ensures Terminated([a, c, open + v + close, d]) + CRLF
            == a + CRLF + c + CRLF + open + v + close + CRLF + d + CRLF + CRLF
  {
    var ls := [a, c, open + v + close, d];
    assert ls[1..] == [c, open + v + close, d];
    assert ls[1..][1..] == [open + v + close, d];
    TerminatedTwo(open + v + close, d);
  }

  lemma PreambleLines()
    ensures MimeVersionLine != "" && NoCR(MimeVersionLine)
    ensures MultipartContentType != "" && NoCR(MultipartContentType)
    ensures ContentLanguageLine != "" && NoCR(ContentLanguageLine)
  {
  }

  predicate IsSeparator(c: char)
  {
    c == '/' || c == '\\'
  }

  /**
   * The position of the last `/` or `\` in the path, or -1: what
   * `strings.LastIndexAny(path, "\\/")` finds, counted in characters where Go
   * counts UTF-8 bytes.  Both separators are one byte, so the text after the
   * separator is the same either way.
   */
  function LastSeparator(path: string): (r: int)
    ensures -1 <= r < |path|
    ensures r >= 0 ==> IsSeparator(path[r])
    ensures forall j :: r < j < |path| ==> !IsSeparator(path[j])
    decreases |path|
  {
    if path == [] then -1
    else if IsSeparator(path[|path| - 1]) then |path| - 1
    else LastSeparator(path[..|path| - 1])
  }

  /** The name an attachment is shown under: what follows the last `/` or `\`, or the whole path. */
  function DisplayName(path: string): (name: string)
    ensures |name| <= |path| && name == path[|path| - |name|..]
    ensures forall i :: 0 <= i < |name| ==> !IsSeparator(name[i])
    ensures |name| < |path| ==> IsSeparator(path[|path| - |name| - 1])
    ensures (forall i :: 0 <= i < |path| ==> !IsSeparator(path[i])) ==> name == path
  {
    var idx := LastSeparator(path);
    var name := if idx >= 0 then path[idx + 1..] else path;
    assert name == path[idx + 1..];
    assert forall i :: 0 <= i < |name| ==> name[i] == path[idx + 1 + i];
    name
  }

  /** The headers of the text part: its plain content type and an 8-bit transfer encoding. */
  function TextPartHeader(): (h: MimeHeader.Header)
    ensures h.Keys == {MimeHeader.ContentTypeKey, TransferEncodingKey}
    ensures h[MimeHeader.ContentTypeKey] == ["text/plain; charset=utf-8; format=flowed"]
    ensures h[TransferEncodingKey] == ["8bit"]
  {
    CanonicalContentType();
    CanonicalContentTransferEncoding();
    MimeHeader.Add(MimeHeader.Add(map[], MimeHeader.ContentTypeKey, "text/plain; charset=utf-8; format=flowed"),
                   TransferEncodingKey, "8bit")
  }

  /**
   * The headers of an attachment part shown as `name`: exactly four, one
   * value each, an octet stream in base64, described by the name, whose
   * disposition offers it as an attachment under that name.
   */
  function AttachmentHeader(name: string): (h: MimeHeader.Header)
    ensures h.Keys == {MimeHeader.ContentTypeKey, DescriptionKey, TransferEncodingKey, DispositionKey}
    ensures h[MimeHeader.ContentTypeKey] == ["application/octet-stream"]
    ensures h[DescriptionKey] == [name]
    ensures h[TransferEncodingKey] == ["base64"]
    ensures h[DispositionKey] == ["attachment;filename=\"" + name + "\""]
  {
    CanonicalContentType();
    CanonicalContentDescription();
    CanonicalContentTransferEncoding();
    CanonicalContentDisposition();
    HeaderKeysDistinct();
    FourFields(MimeHeader.ContentTypeKey, DescriptionKey, TransferEncodingKey, DispositionKey,
               "application/octet-stream", name, "base64", "attachment;filename=\"" + name + "\"");
    var h0 := MimeHeader.Add(map[], MimeHeader.ContentTypeKey, "application/octet-stream");
    var h1 := MimeHeader.Add(h0, DescriptionKey, name);
    var h2 := MimeHeader.Add(h1, TransferEncodingKey, "base64");
    MimeHeader.Add(h2, DispositionKey, "attachment;filename=\"" + name + "\"")
  }

  /** The text part is created with the text part's two headers. */
  lemma TextPartHeaderFields(p: Part)
    requires p.TextPart?
    ensures var h := p.Header();
            && h.Keys == {MimeHeader.ContentTypeKey, TransferEncodingKey}
            && h[MimeHeader.ContentTypeKey] == ["text/plain; charset=utf-8; format=flowed"]
            && h[TransferEncodingKey] == ["8bit"]
  {
    assert p.Header() == TextPartHeader();
  }

  /** An attachment part is created with the four attachment headers, naming the file by its display name. */
  lemma AttachmentHeaderFields(p: Part)
    requires p.FilePart?
    ensures var h := p.Header();
            var name := DisplayName(p.path);
            && h.Keys == {MimeHeader.ContentTypeKey, DescriptionKey, TransferEncodingKey, DispositionKey}
            && h[MimeHeader.ContentTypeKey] == ["application/octet-stream"]
            && h[DescriptionKey] == [name]
            && h[TransferEncodingKey] == ["base64"]
            && h[DispositionKey] == ["attachment;filename=\"" + name + "\""]
  {
    assert p.Header() == AttachmentHeader(DisplayName(p.path));
  }

  /** Adding four distinct canonical keys to an empty map, one value each. */
  lemma FourFields(k1: string, k2: string, k3: string, k4: string, v1: string, v2: string, v3: string, v4: string)
    requires MimeHeader.CanonicalKey(k1) == k1 && MimeHeader.CanonicalKey(k2) == k2
    requires MimeHeader.CanonicalKey(k3) == k3 && MimeHeader.CanonicalKey(k4) == k4
    requires k1 != k2 && k1 != k3 && k1 != k4 && k2 != k3 && k2 != k4 && k3 != k4
    ensures var h := MimeHeader.Add(MimeHeader.Add(MimeHeader.Add(MimeHeader.Add(map[], k1, v1), k2, v2), k3, v3), k4, v4);
            && h.Keys == {k1, k2, k3, k4}
            && h[k1] == [v1] && h[k2] == [v2] && h[k3] == [v3] && h[k4] == [v4]
  {
  }

  lemma HeaderKeysDistinct()
    ensures MimeHeader.ContentTypeKey != DescriptionKey && MimeHeader.ContentTypeKey != TransferEncodingKey
    ensures MimeHeader.ContentTypeKey != DispositionKey && DescriptionKey != TransferEncodingKey
    ensures DescriptionKey != DispositionKey && TransferEncodingKey != DispositionKey
  {
    assert |MimeHeader.ContentTypeKey| == 12 && |DescriptionKey| == 19;
    assert |TransferEncodingKey| == 25 && |DispositionKey| == 19;
    assert DescriptionKey[9] == 'e' && DispositionKey[9] == 'i';
  }

  lemma CanonicalContentType()
    ensures MimeHeader.CanonicalKey(MimeHeader.ContentTypeKey) == MimeHeader.ContentTypeKey
  {
  }

  lemma CanonicalContentDescription()
    ensures MimeHeader.CanonicalKey(DescriptionKey) == DescriptionKey
  {
    CanonicalWordContent();
    CanonicalWordDescription();
    MimeHeader.CanonicalKeyConcat("Content-", "Description");
  }

  lemma CanonicalWordDescription()
    ensures MimeHeader.IsToken("Description") && MimeHeader.CanonicalKey("Description") == "Description"
  {
  }

  lemma CanonicalContentTransferEncoding()
    ensures MimeHeader.CanonicalKey(TransferEncodingKey) == TransferEncodingKey
  {
    CanonicalWordContent();
    CanonicalTransferEncoding();
    MimeHeader.CanonicalKeyConcat("Content-", "Transfer-" + "Encoding");
  }

  lemma CanonicalTransferEncoding()
    ensures MimeHeader.IsToken("Transfer-" + "Encoding")
    ensures MimeHeader.CanonicalKey("Transfer-" + "Encoding") == "Transfer-" + "Encoding"
  {
    CanonicalWordTransfer();
    CanonicalWordEncoding();
    MimeHeader.CanonicalKeyConcat("Transfer-", "Encoding");
  }

  lemma CanonicalWordContent()
    ensures MimeHeader.IsToken("Content-") && MimeHeader.CanonicalKey("Content-") == "Content-"
  {
  }

  lemma CanonicalWordTransfer()
    ensures MimeHeader.IsToken("Transfer-") && MimeHeader.CanonicalKey("Transfer-") == "Transfer-"
  {
  }

  lemma CanonicalWordEncoding()
    ensures MimeHeader.IsToken("Encoding") && MimeHeader.CanonicalKey("Encoding") == "Encoding"
  {
  }

  lemma CanonicalContentDisposition()
    ensures MimeHeader.CanonicalKey(DispositionKey) == DispositionKey
  {
    CanonicalWordContent();
    CanonicalWordDisposition();
    MimeHeader.CanonicalKeyConcat("Content-", "Disposition");
  }

  lemma CanonicalWordDisposition()
    ensures MimeHeader.IsToken("Disposition") && MimeHeader.CanonicalKey("Disposition") == "Disposition"
  {
  }

  /** The part for one attachment: created before the file is read, filled only if the read succeeds. */
  function AttachmentPart(file: string, readable: bool): Part
  {
    FilePart(file, if readable then Base64Of(file) else NoContent)
  }

  /**
   * The attachment loop: one part per file, stopping after the first file
   * that cannot be read.  Without an error every file got a part; after an
   * error the last part is the empty part of the file the error names.
   */
  function AttachmentParts(files: seq<string>, readable: string -> bool): (r: PartsOutcome)
    ensures |r.parts| <= |files|
    ensures r.err.None? ==> |r.parts| == |files|
    ensures r.err.Some? ==>
              && 1 <= |r.parts|
              && r.err == Some(ReadFailed(files[|r.parts| - 1]))
              && r.parts[|r.parts| - 1] == AttachmentPart(files[|r.parts| - 1], false)
    decreases |files|
  {
    if files == [] then PartsOutcome([], None)
    else if !readable(files[0]) then PartsOutcome([AttachmentPart(files[0], false)], Some(ReadFailed(files[0])))
    else
      var rest := AttachmentParts(files[1..], readable);
      PartsOutcome([AttachmentPart(files[0], true)] + rest.parts, rest.err)
  }

  /** The attachments a message carries; a nil list has none. */
  function AttachmentList(m: EMail): seq<string>
  {
    if m.attachments.Some? then m.attachments.value else []
  }

  /** The text part, present only for a non-empty message. */
  function TextParts(m: EMail): (r: seq<Part>)
    ensures |r| == (if |m.msg| > 0 then 1 else 0)
    ensures forall i :: 0 <= i < |r| ==> r[i] == TextPart(m.msg)
  {
    if |m.msg| > 0 then [TextPart(m.msg)] else []
  }

  /** The index of the first file that cannot be read, or the number of files when all can. */
  function FirstUnreadable(files: seq<string>, readable: string -> bool): (k: nat)
    ensures k <= |files|
    ensures forall i :: 0 <= i < k ==> readable(files[i])
    ensures k < |files| ==> !readable(files[k])
    decreases |files|
  {
    if files == [] || !readable(files[0]) then 0
    else
      var k := FirstUnreadable(files[1..], readable);
      assert forall i :: 1 <= i < 1 + k ==> files[i] == files[1..][i - 1];
      1 + k
  }

  /**
   * Attachment processing stops at the first unreadable file: every file
   * before it got a full part, it got an empty one and the error names it,
   * and no file after it got a part.  Without an unreadable file, every file
   * got a full part, in order, and there is no error.
   */
  lemma {:induction false} AttachmentsStopAtFirstError(files: seq<string>, readable: string -> bool)
    ensures var r := AttachmentParts(files, readable);
            var k := FirstUnreadable(files, readable);
            && |r.parts| == (if k < |files| then k + 1 else |files|)
            && (forall i :: 0 <= i < |r.parts| ==> r.parts[i] == AttachmentPart(files[i], readable(files[i])))
            && r.err == (if k < |files| then Some(ReadFailed(files[k])) else None)
    decreases |files|
  {
    if files != [] && readable(files[0]) {
      AttachmentsStopAtFirstError(files[1..], readable);
      var rest := AttachmentParts(files[1..], readable);
      var r := AttachmentParts(files, readable);
      assert r.parts == [AttachmentPart(files[0], true)] + rest.parts;
      forall i | 1 <= i < |r.parts|
        ensures r.parts[i] == AttachmentPart(files[i], readable(files[i]))
      {
        assert r.parts[i] == rest.parts[i - 1];
        assert files[1..][i - 1] == files[i];
      }
    }
  }

  /** The loop ends without error exactly when every file can be read. */
  lemma AttachmentsSucceedIffReadable(files: seq<string>, readable: string -> bool)
    ensures AttachmentParts(files, readable).err.None? <==> forall i :: 0 <= i < |files| ==> readable(files[i])
  {
    AttachmentsStopAtFirstError(files, readable);
  }

  lemma {:induction false} AttachmentPartsAppend(xs: seq<string>, ys: seq<string>, readable: string -> bool)
    ensures AttachmentParts(xs + ys, readable)
            == (var r := AttachmentParts(xs, readable);
                if r.err.Some? then r
                else var r2 := AttachmentParts(ys, readable); PartsOutcome(r.parts + r2.parts, r2.err))
    decreases |xs|
  {
    if xs == [] {
      assert xs + ys == ys;
      assert [] + AttachmentParts(ys, readable).parts == AttachmentParts(ys, readable).parts;
    } else {
      assert (xs + ys)[0] == xs[0] && (xs + ys)[1..] == xs[1..] + ys;
      AttachmentPartsAppend(xs[1..], ys, readable);
    }
  }

  /** The text part followed by the attachment parts, and the error of the attachment loop. */
  function MultipartParts(m: EMail, readable: string -> bool): PartsOutcome
  {
    var r := AttachmentParts(AttachmentList(m), readable);
    PartsOutcome(TextParts(m) + r.parts, r.err)
  }

  lemma AttachmentPartsOne(file: string, readable: string -> bool)
    ensures AttachmentParts([file], readable)
            == PartsOutcome([AttachmentPart(file, readable(file))], if readable(file) then None else Some(ReadFailed(file)))
  {
    assert [file][1..] == [];
  }

  /** The attachment loop of `dataMP`: one part per file, leaving the loop after the first file that cannot be read. */
  method WriteAttachments(files: seq<string>, readable: string -> bool) returns (parts: seq<Part>, err: Option<MailError>)
    ensures parts == AttachmentParts(files, readable).parts
    ensures err == AttachmentParts(files, readable).err
  {
    parts := [];
    err := None;
    var i := 0;
    while i < |files|
      invariant 0 <= i <= |files|
      invariant AttachmentParts(files[..i], readable) == PartsOutcome(parts, None)
      invariant err.None?
    {
      var fileName := files[i];
      var ok := readable(fileName);
      var part := FilePart(fileName, if ok then Base64Of(fileName) else NoContent);
      parts := parts + [part];
      if !ok {
        err := Some(ReadFailed(fileName));
      }
      assert files[..i + 1] == files[..i] + [fileName];
      AttachmentPartsOne(fileName, readable);
      AttachmentPartsAppend(files[..i], [fileName], readable);
      if err.Some? {
        assert files == files[..i + 1] + files[i + 1..];
        AttachmentPartsAppend(files[..i + 1], files[i + 1..], readable);
        return;
      }
      i := i + 1;
    }
    assert files[..i] == files;
  }

  /** `dataMP`: writes the preamble, the text part if there is a message, then the attachment parts. */
  method DataMP(m: EMail, boundary: string, readable: string -> bool)
    returns (preamble: string, parts: seq<Part>, err: Option<MailError>)
    ensures preamble == Preamble(boundary)
    ensures parts == MultipartParts(m, readable).parts
    ensures err == MultipartParts(m, readable).err
  {
    preamble := MultipartHeader + " boundary=\"" + boundary + "\"" + CRLF + ContentLanguageLine + CRLF + CRLF;
    parts := [];
    if |m.msg| > 0 {
      parts := parts + [TextPart(m.msg)];
    }
    var attached;
    attached, err := WriteAttachments(AttachmentList(m), readable);
    parts := parts + attached;
  }

  // ---------------------------------------------------------------------
  // EMailSend: the choice of body
  // ---------------------------------------------------------------------

  /**
   * The data `EMailSend` writes once the session is open: the header block,
   * then the multipart body if the attachment list is non-nil, else the
   * plain body.
   */
  method Send(m: EMail, boundary: string, readable: string -> bool) returns (message: Message, err: Option<MailError>)
    requires |m.to| >= 1
    ensures message.header == Terminated(HeaderLines(m))
    ensures message.body.PlainBody? <==> m.attachments.None?
    ensures m.attachments.None? ==> message.body == PlainBody(Data(m)) && err.None?
    ensures m.attachments.Some? ==>
              && message.body == MultipartBody(Preamble(boundary), MultipartParts(m, readable).parts)
              && err == MultipartParts(m, readable).err
  {
    var header := PrepareData(m);
    if m.attachments.None? {
      message := Message(header, PlainBody(Data(m)));
      err := None;
    } else {
      var preamble, parts;
      preamble, parts, err := DataMP(m, boundary, readable);
      message := Message(header, MultipartBody(preamble, parts));
    }
  }

}
