# SOAP envelope builder and mail composition, modelled in Dafny

This project models two small cores of a Go utility library and proves
properties of the models.

**SOAP client (`net/soap/soap.go`, module `Soap`).** A client carries a
protocol version. `Build` writes three things into one buffer:

- the XML prologue and `soap:Envelope` header. Version 0 gets the SOAP 1.1
  header and every other number the 1.2 one. The two differ only in the
  `soap` namespace URI.
- the parameter tree, encoded by `recursiveEncode` into XML tokens:
  - a map entry becomes a start tag, the child's tokens, then the end tag;
  - a slice becomes its items in order, with no wrapping tag;
  - a string becomes one character-data token;
  - any other kind emits nothing.
- the envelope footer, only when encoding succeeded.

Whether the Go encoder (`xml.Encoder`) accepts a token is an oracle
`accepts(history, token)`, where `history` is the tokens the encoder has
already accepted. The oracle over-approximates the encoder: writing to a
`bytes.Buffer`, `xml.Encoder` refuses only a start tag with an empty name and
an end tag that does not close the innermost open tag, and every result here
holds for any oracle, including that one. The encoder holds accepted tokens
in its write buffer until `Flush`, and `buildData` flushes only on success.
The class `TokenEncoder` models that buffer. `Header` returns the HTTP header table of
the client's version. Those tables are built with `http.Header.Add`, which
canonicalises keys.

**Mail composition (`net/email/mail.go`, module `Mail`).** `EMailSend`
writes a header block after the SMTP DATA command:

- the first recipient in `To:`, every further recipient in `Cc:`;
- then `From:` and `Subject:`.

It then writes one of two bodies:

- the plain text body, when the attachment list is nil;
- otherwise a multipart/mixed body: a preamble carrying the writer's
  boundary, a text part when the message is non-empty, and one part per
  attachment.

The attachment loop stops after the first file that cannot be read. The part
for that file has already been created by then, so it stays, with no
content. An attachment part's header names the file by its display name,
which is the text after the last `/` or `\`.

**Header maps (module `MimeHeader`).** This module holds the key
canonicalisation and `Add` of `net/http.Header` and
`net/textproto.MIMEHeader`. Both cores use it.

Reference definitions the proofs relate the code to:

- `Soap.Flatten`: the tokens of a value when the encoder accepts everything.
- `Soap.Unflatten`: reads a body back as a map whose values are strings or,
  recursively, such maps. `Soap.TextTree` names those maps.
- `Soap.Feed`: feeding a token sequence until the first refusal.
- `Soap.WellNested`: every end tag closes the innermost open tag.
- `Mail.SplitHeaders`: reads a text as a header section in the layout of
  section 2.1 of RFC 5322 (CRLF-terminated lines, an empty line, the body).
- `Mail.FirstUnreadable`: the index of the first file that cannot be read.

Two facts about the code that are easy to miss:

- **Values of other kinds.** The type switch at net/soap/soap.go:59-87 has
  no default branch, so a value that is not a map, a slice or a string emits
  nothing and succeeds (`Soap.EncodeLeaves`).
- **The SOAPAction key.** `http.Header.Add` stores `SOAPAction` under the
  canonical key `Soapaction` (`Soap.Client.Header`).

## Model

| member | source | states |
|---|---|---|
| Soap.Client.Version | net/soap/soap.go:23-25 | Returns the version the client was created with; with `Soap.NewClient`, `NewClient(n).Version() == n`. |
| Soap.NewClient | net/soap/soap.go:100-102 | The new client's `Version()` is exactly the number passed in, for every integer. |
| Soap.Client.Header | net/soap/soap.go:92-98 | Version 0 has exactly the keys Content-Type and Soapaction: content type `text/xml; charset=UTF-8` and the fixed SOAPAction value. Any other version has only Content-Type, `application/soap+xml;charset=UTF-8`. One value per key. |
| Soap.SoapActionKeyIsCanonicalised | net/soap/soap.go:104-108 | `init` adds under `SOAPAction`, which the header table stores as `Soapaction`. Content-Type is already canonical. |
| Soap.Client.Build | net/soap/soap.go:27-43 | The buffer starts with the envelope header of the client's version, which differs between versions only in the namespace URI. The error is the encoding's error. On success the body is the flattened parameter tree, well nested, followed by the footer. On error no body token and no footer reach the buffer, and the buffer is still returned with the header. |
| Soap.BuildData | net/soap/soap.go:45-54 | The encoding's error is returned. On success the flushed body is the flattened value and is well nested. On error nothing was flushed. |
| Soap.Encode | net/soap/soap.go:56-90 | The walk of `recursiveEncode` as a function of the value and the tokens already accepted. When it fails, the error names a token the encoder refused right after the emitted tokens. `Soap.EncodeIsFeed` and `Soap.EncodeStopsAtFirstRejection` relate its tokens to `Flatten`. |
| Soap.EncodeEntries | net/soap/soap.go:60-78 | The map loop as a function: entries in order, later entries only after earlier ones succeeded. An error names a token refused right after the emitted tokens. |
| Soap.EncodeEntry | net/soap/soap.go:62-73 | One entry: start tag, child, end tag, each only after the previous succeeded. An error names a token refused right after the emitted tokens, whether the start tag, a token of the child or the end tag. |
| Soap.EncodeItems | net/soap/soap.go:80-83 | The slice loop as a function: items in order, no wrapping tag, stopping at the first error. An error names a token refused right after the emitted tokens. |
| Soap.RecursiveEncode | net/soap/soap.go:56-90 | The encoder's buffer grows by exactly the tokens of `Encode` for the value, and the error is `Encode`'s error. Nothing is flushed. |
| Soap.EncodeMapEntries | net/soap/soap.go:60-78 | The map loop appends the tokens of the entries in order, stopping at the first error: the same tokens and error as `EncodeEntries`. |
| Soap.EncodeMapEntry | net/soap/soap.go:62-73 | One entry appends its start tag, then the child encoding only if the start tag was accepted, then its end tag only if the child succeeded. |
| Soap.EncodeSliceItems | net/soap/soap.go:80-83 | The slice loop appends the items' tokens in index order, while no error has occurred, with no wrapping tag. |
| Soap.TokenEncoder.EncodeToken | net/soap/soap.go:68-71 | An accepted token is appended to the write buffer with no error. A refused token leaves the buffer unchanged and returns the error naming it. Flushed output is untouched. |
| Soap.TokenEncoder.Flush | net/soap/soap.go:49-51 | Every buffered token moves to the output, in order. |
| Soap.EncodeLeaves | net/soap/soap.go:84-89 | A string emits exactly one character-data token, or the error refusing it. Empty maps, empty slices and values of other kinds emit nothing and return no error. |
| Soap.EncodeIsFeed | net/soap/soap.go:56-90 | Encoding a value emits exactly what feeding its flattened tokens to the encoder one by one emits, up to the first refusal: same tokens, same error. |
| Soap.FeedLongestAcceptedPrefix | net/soap/soap.go:68-77 | Feeding yields a prefix of the tokens, each accepted after those before it. It fails exactly when the prefix is proper, and the error names the next token, which the encoder refused. |
| Soap.EncodeStopsAtFirstRejection | net/soap/soap.go:68-83 | Fail-fast. Success holds exactly when the whole flattened value was emitted. On failure a proper prefix was emitted, every token of it accepted, and the error names the first refused token. So no end tag follows a failed child and no later entry or item is visited. |
| Soap.EncodeSuccessWellNested | net/soap/soap.go:60-73 | A successful encoding is the flattened value, and every start tag in it is closed by a matching end tag in the proper nesting. |
| Soap.FlattenBalanced | net/soap/soap.go:62-71 | The tokens of any value leave the open-tag stack as they found it. |
| Soap.EncodeEntriesAppend | net/soap/soap.go:61-78 | Entries after a prefix of the map are visited only when the prefix succeeded, starting from the tokens the prefix emitted. |
| Soap.EncodeItemsAppend | net/soap/soap.go:81-83 | Items after a prefix of the slice are encoded only when the prefix succeeded, and their tokens follow the prefix's. |
| Soap.UnflattenFlatten | net/soap/soap.go:60-87 | Round trip: the body built from a map whose values are strings or, recursively, such maps reads back as exactly that map, keys, order and texts included. |
| Soap.FlattenUnflatten | net/soap/soap.go:60-87 | The reader accepts nothing else: whatever a token sequence reads back as is such a map, and that map's body is exactly the token sequence. So a body determines the map it came from. |
| MimeHeader.Add | net/email/mail.go:120-124 | Adding puts the value after the existing values of the canonical key. It adds exactly that key and leaves every other key's values alone. |
| MimeHeader.CanonicalKeyConcat | net/email/mail.go:121-124 | Canonicalisation works word by word: a key splits after any `-`. This is how the mail part keys are shown to be canonical already. |
| Mail.HeaderLines | net/email/mail.go:72-77 | The header block has one line per recipient plus two: `To:` with the first recipient, `Cc:` with each further one in order, then `From:`, then `Subject:`. |
| Mail.PrepareData | net/email/mail.go:70-85 | The string built by appending one line per recipient after the first is every header line, each followed by CRLF. |
| Mail.Data | net/email/mail.go:87-93 | The plain body ends with the message text, unchanged, after exactly the content-type line with its CRLF and one more CRLF. `Mail.PlainMessageRoundTrip` reads that prefix back as the content-type line and the empty line. |
| Mail.PlainMessageRoundTrip | net/email/mail.go:87-93 | Read back as RFC 5322 text, header block plus plain body gives the header lines, then the fixed text/plain content-type line, then exactly the message text as the body, whatever the text holds. Header fields must contain no CR. |
| Mail.Preamble | net/email/mail.go:97 | The preamble is four CRLF-terminated header lines followed by an empty line: MIME version, the multipart content type, the folded ` boundary="…"` continuation with the writer's boundary, the content language. |
| Mail.PreambleRoundTrip | net/email/mail.go:97 | Read back, the multipart preamble gives four header lines and an empty body. The lines are the MIME version, the multipart/mixed content type, the folded ` boundary="…"` continuation carrying the writer's boundary, and the content language. The boundary must contain no CR. |
| Mail.LastSeparator | net/email/mail.go:117 | The index of the last `/` or `\` in the path, counted in characters, or -1 when there is none. |
| Mail.DisplayName | net/email/mail.go:116-119 | The display name is a suffix of the path and contains neither separator. When shorter than the path, it is preceded by a separator. It is the whole path when the path has no separator. |
| Mail.TextPartHeader | net/email/mail.go:104-106 | The two `Add` calls give exactly two keys, one value each: the flowed UTF-8 text/plain content type and `8bit` transfer encoding. |
| Mail.AttachmentHeader | net/email/mail.go:120-124 | The four `Add` calls give exactly four keys, one value each: `application/octet-stream`, the name as description, `base64` transfer encoding, and the disposition `attachment;filename="<name>"`. |
| Mail.TextPartHeaderFields | net/email/mail.go:103-106 | The text part is created with exactly those two headers. |
| Mail.AttachmentHeaderFields | net/email/mail.go:116-124 | An attachment part is created with exactly those four headers, with the file's display name as the name. |
| Mail.TextParts | net/email/mail.go:103-112 | A text part is created exactly when the message is non-empty, and it holds the message. |
| Mail.AttachmentParts | net/email/mail.go:115-140 | The loop as a function. There are never more parts than files. Without an error every file got a part. After an error there is at least one part, the error names the file of the last part, and that part is the empty part of that file. |
| Mail.AttachmentsStopAtFirstError | net/email/mail.go:115-140 | File i's part is the part for file i, in order. When some file is unreadable, the files before it got full parts, it got an empty part, no later file got one, and the error names that file. When all files are readable, every file got a full part and there is no error. |
| Mail.AttachmentsSucceedIffReadable | net/email/mail.go:115-140 | The attachment loop ends without error exactly when every file can be read. |
| Mail.AttachmentPartsAppend | net/email/mail.go:115-140 | Files after a prefix are processed only when the prefix went without error. |
| Mail.WriteAttachments | net/email/mail.go:115-140 | The loop with its early exit yields the same parts and error as the attachment specification, for every list and every readability oracle. |
| Mail.DataMP | net/email/mail.go:95-145 | The multipart writer gets the preamble for its boundary, then the text part if any, then the attachment parts, and the error of the attachment loop. |
| Mail.Send | net/email/mail.go:26-46 | The header block always comes first. The body is multipart exactly when the attachment list is non-nil. A nil list gives the plain body and no error; a non-nil list gives the multipart body and the error of its attachment loop. |

## Left out

- I/O and session handling are not part of this model: the SMTP session (`connect`, `dial` over TLS, `header` with `Auth`/`Mail`/`Rcpt`, `Data`, `Close`) and the writes to the data writer. `Mail.Send` starts from an open DATA writer. The model assumes that `c.Data()`, every `Write` and every `CreatePart` succeed, so their error paths (net/email/mail.go:71, 79, 90, 100, 108-110, 125, 133) are not modelled.
- Reading attachment files and base64 encoding are library calls. Readability is an oracle `readable: string -> bool`, and a readable file's part holds `Base64Of(path)` in place of the encoded bytes.
- The multipart boundary is chosen at random by `mime/multipart`, so it is an input here. Rendering parts to text is not modelled: sorted header lines, boundary delimiters, and the closing delimiter written by the deferred `wpart.Close`. A part is modelled by its header map and content.
- Soap.Client.Build, Soap.BuildData: on error they state that no body token reaches the buffer. This ignores the automatic flush of the encoder's 4096-byte internal buffer, which can put a prefix of the body into the output before the error.
- Rendering XML tokens to text is not modelled: the indentation set by `e.Indent("    ", "  ")` and the escaping of character data (section 2.4 of XML 1.0). Tokens are modelled as values.
- Which tokens the XML encoder refuses is an oracle that may refuse any token. The model does not restate Go's checks on element names or end tags, so it admits refusals the real encoder never makes.
- The round trip of a parameter map is stated on tokens (`Soap.UnflattenFlatten`). Reading the rendered XML text back is not modelled, because rendering and escaping are not.
- Go reflection is replaced by the `Value` datatype. Map keys are strings; the rendering of non-string keys by `k.String()` is not modelled.
- Map iteration order in Go is unspecified. A map is modelled by its entries in the order iteration yields them, taken as input.
- The version is an unbounded `int`. No arithmetic is done on it, so Go's integer width does not matter.
- The package-level header maps that `init` fills are modelled as constant tables.
- The files of `net/httpc` are not part of this model. The only thing used from them is the constant `HTTPHeaderContentType`, which is `Content-Type`.
- Mail.LastSeparator: Go strings are UTF-8 byte sequences, and the model takes strings as sequences of Unicode characters. So the index it returns counts characters, while `strings.LastIndexAny` returns a byte offset: on `"é/a"` Go gives 2 and the model gives 1. Both separators are single-byte ASCII, so the display name cut after the separator (`Mail.DisplayName`) is the same.
- Mail.PrepareData, Mail.HeaderLines and Mail.Send require at least one recipient. Go indexes `To[0]` and would panic on an empty list.
