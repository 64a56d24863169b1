/**
 * The SOAP envelope builder of net/soap/soap.go.
 *
 * A client carries a protocol version.  `Build` writes the envelope header
 * chosen by that version, then the parameter tree encoded as XML tokens by
 * `RecursiveEncode`, then the envelope footer.  The XML encoder is modelled
 * at token level: it accepts or rejects each token (an oracle over the
 * tokens it has already accepted), holds accepted tokens in its internal
 * write buffer and hands them on to the output only when flushed.
 */
module Soap {
  import opened Wrappers
  import MimeHeader

  // ---------------------------------------------------------------------
  // Constants
  // ---------------------------------------------------------------------

  const SoapVersion1Dot1: int := 0
  const SoapVersion1Dot2: int := 1

  const ContentType1Dot1 := "text/xml; charset=UTF-8"
  const ContentType1Dot2 := "application/soap+xml;charset=UTF-8"

  const SoapActionKey := "SOAPAction"
  const SoapActionValue := "\"http://xmlme.com/WebServices/GetSpeech\""

  /** The envelope header for each version: they differ only in the `soap` namespace URI. */
  const SoapHeader1Dot1 := EnvelopeOpening + Namespace1Dot1 + EnvelopeClosing
  const SoapHeader1Dot2 := EnvelopeOpening + Namespace1Dot2 + EnvelopeClosing

  /** The footer; note the space after the closing Body tag. */
  const SoapTail := "\n  </soap:Body> \n</soap:Envelope>"

  /** The envelope header text before and after the `soap` namespace URI. */
  const EnvelopeOpening :=
    "<?xml version=\"1.0\" encoding=\"utf-8\"?>\n"
    + "<soap:Envelope xmlns:xsi=\"http://www.w3.org/2001/XMLSchema-instance\"\n"
    + "  xmlns:xsd=\"http://www.w3.org/2001/XMLSchema\"\n"
    + "  xmlns:soap=\""
  const EnvelopeClosing := "\">\n  <soap:Body>\n"

  const Namespace1Dot1 := "http://schemas.xmlsoap.org/soap/envelope/"
  const Namespace1Dot2 := "http://www.w3.org/2003/05/soap-envelope"

  /** The HTTP header tables that `init` fills, one per version. */
  const Header11: MimeHeader.Header :=
    MimeHeader.Add(MimeHeader.Add(map[], MimeHeader.ContentTypeKey, ContentType1Dot1), SoapActionKey, SoapActionValue)
  const Header12: MimeHeader.Header :=
    MimeHeader.Add(map[], MimeHeader.ContentTypeKey, ContentType1Dot2)

  // ---------------------------------------------------------------------
  // Data model
  // ---------------------------------------------------------------------

  /**
   * A parameter value: a map (its entries in the order the map iteration
   * yields them), a slice, a string, or a value of any other kind.
   */
  datatype Value =
    | Map(entries: seq<Entry>)
    | List(items: seq<Value>)
    | Text(text: string)
    | Other

  datatype Entry = Entry(key: string, value: Value)

  /** An XML token as handed to the encoder. */
  datatype Token = Start(name: string) | End(name: string) | Chars(data: string)

  /** The encoder refused a token. */
  datatype Error = Rejected(token: Token)

  /** The tokens an encoding step emitted, and the error that stopped it, if any. */
  datatype Outcome = Outcome(tokens: seq<Token>, err: Option<Error>)

  /** Whether the encoder accepts a token, given the tokens it has already accepted. */
  type Acceptor = (seq<Token>, Token) -> bool

  /** The buffer `Build` returns: the envelope header, the body tokens that reached it, the footer. */
  datatype Document = Document(header: string, body: seq<Token>, tail: string)

  datatype Client = Client(version: int)
  {
    /** The protocol version the client was created with. */
    function Version(): (v: int)
      ensures v == version
    {
      version
    }

    /** The HTTP headers to send with a built envelope. */
    function Header(): (h: MimeHeader.Header)
      ensures h.Keys == if version == SoapVersion1Dot1
                        then {MimeHeader.ContentTypeKey, "Soapaction"}
                        else {MimeHeader.ContentTypeKey}
      ensures h[MimeHeader.ContentTypeKey] == if version == SoapVersion1Dot1
                                              then [ContentType1Dot1]
                                              else [ContentType1Dot2]
      ensures version == SoapVersion1Dot1 ==> h["Soapaction"] == [SoapActionValue]
    {
      SoapActionKeyIsCanonicalised();
      if version == SoapVersion1Dot1 then Header11 else Header12
    }

    /**
     * Writes the header for the client's version, then the encoded body,
     * then, only if encoding succeeded, the footer.  The buffer comes back
     * with the error either way.
     */
    method Build(accepts: Acceptor, params: seq<Entry>) returns (doc: Document, err: Option<Error>)
      ensures doc.header == EnvelopeOpening + NamespaceOf(version) + EnvelopeClosing
      ensures err == Encode(accepts, [], Map(params)).err
      ensures err.None? ==> doc.body == Flatten(Map(params)) && WellNested(doc.body) && doc.tail == SoapTail
      ensures err.Some? ==> doc.body == [] && doc.tail == ""
    {
      var header := if version == SoapVersion1Dot1 then SoapHeader1Dot1 else SoapHeader1Dot2;
      var body;
      body, err := BuildData(accepts, params);
      var tail := "";
      if err.None? {
        tail := SoapTail;
      }
      doc := Document(header, body, tail);
    }
  }

  function NewClient(version: int): (c: Client)
    ensures c.Version() == version
  {
    Client(version)
  }

  /**
   * The `soap` namespace URI: the 1.1 one for `SoapVersion1Dot1` (0), the 1.2
   * one for `SoapVersion1Dot2` (1) and for every other number.
   */
  function NamespaceOf(version: int): string
  {
    if version == SoapVersion1Dot1 then Namespace1Dot1 else Namespace1Dot2
  }

  lemma SoapActionKeyIsCanonicalised()
    ensures MimeHeader.CanonicalKey(SoapActionKey) == "Soapaction"
    ensures MimeHeader.CanonicalKey(MimeHeader.ContentTypeKey) == MimeHeader.ContentTypeKey
  {
  }

  // ---------------------------------------------------------------------
  // The encoding, as functions
  // ---------------------------------------------------------------------

  /** Hands one token to the encoder. */
  function Emit(accepts: Acceptor, history: seq<Token>, t: Token): Outcome
  {
    if accepts(history, t) then Outcome([t], None) else Outcome([], Some(Rejected(t)))
  }

  /** A successful step followed by the next one. */
  function Then(first: Outcome, next: Outcome): Outcome
  {
    Outcome(first.tokens + next.tokens, next.err)
  }

  /** The tokens `recursiveEncode` feeds the encoder, starting after `history`, and its error. */
  function Encode(accepts: Acceptor, history: seq<Token>, v: Value): (r: Outcome)
    ensures r.err.Some? ==> !accepts(history + r.tokens, r.err.value.token)
    decreases v
  {
    match v
    case Map(es) => EncodeEntries(accepts, history, es)
    case List(xs) => EncodeItems(accepts, history, xs)
    case Text(s) => assert history + [] == history; Emit(accepts, history, Chars(s))
    case Other => Outcome([], None)
  }

  /** The loop over map keys: entries in order, stopping at the first error. */
  function EncodeEntries(accepts: Acceptor, history: seq<Token>, es: seq<Entry>): (r: Outcome)
    ensures r.err.Some? ==> !accepts(history + r.tokens, r.err.value.token)
    decreases es
  {
    if es == [] then Outcome([], None)
    else
      var r := EncodeEntry(accepts, history, es[0]);
      if r.err.Some? then r
      else
        var rest := EncodeEntries(accepts, history + r.tokens, es[1..]);
        assert history + r.tokens + rest.tokens == history + (r.tokens + rest.tokens);
        Then(r, rest)
  }

  /** One map entry: the start tag, the child, the end tag, each only if everything before it succeeded. */
  function EncodeEntry(accepts: Acceptor, history: seq<Token>, e: Entry): (r: Outcome)
    ensures r.err.Some? ==> !accepts(history + r.tokens, r.err.value.token)
    decreases e
  {
    var s := Emit(accepts, history, Start(e.key));
    if s.err.Some? then assert history + [] == history; s
    else
      var c := Encode(accepts, history + s.tokens, e.value);
      assert history + s.tokens + c.tokens == history + (s.tokens + c.tokens);
      if c.err.Some? then Then(s, c)
      else
        var t := Emit(accepts, history + s.tokens + c.tokens, End(e.key));
        assert t.err.Some? ==> t.err.value.token == End(e.key) && !accepts(history + s.tokens + c.tokens, End(e.key));
        assert t.err.Some? ==> history + s.tokens + c.tokens + t.tokens == history + s.tokens + c.tokens;
        assert history + (s.tokens + (c.tokens + t.tokens)) == history + s.tokens + c.tokens + t.tokens;
        Then(s, Then(c, t))
  }

  /** The loop over slice items: items in order, no wrapping tag, stopping at the first error. */
  function EncodeItems(accepts: Acceptor, history: seq<Token>, xs: seq<Value>): (r: Outcome)
    ensures r.err.Some? ==> !accepts(history + r.tokens, r.err.value.token)
    decreases xs
  {
    if xs == [] then Outcome([], None)
    else
      var r := Encode(accepts, history, xs[0]);
      if r.err.Some? then r
      else
        var rest := EncodeItems(accepts, history + r.tokens, xs[1..]);
        assert history + r.tokens + rest.tokens == history + (r.tokens + rest.tokens);
        Then(r, rest)
  }

  // ---------------------------------------------------------------------
  // Reference definitions
  // ---------------------------------------------------------------------

  /** The tokens of a value when the encoder accepts everything. */
  function Flatten(v: Value): seq<Token>
    decreases v
  {
    match v
    case Map(es) => FlattenEntries(es)
    case List(xs) => FlattenItems(xs)
    case Text(s) => [Chars(s)]
    case Other => []
  }

  function FlattenEntries(es: seq<Entry>): seq<Token>
    decreases es
  {
    if es == [] then [] else FlattenEntry(es[0]) + FlattenEntries(es[1..])
  }

  function FlattenEntry(e: Entry): seq<Token>
    decreases e
  {
    [Start(e.key)] + Flatten(e.value) + [End(e.key)]
  }

  function FlattenItems(xs: seq<Value>): seq<Token>
    decreases xs
  {
    if xs == [] then [] else Flatten(xs[0]) + FlattenItems(xs[1..])
  }

  /**
   * Feeds `ts` to the encoder one token at a time and stops at the first one
   * it rejects: the result is the longest accepted prefix of `ts`.
   */
  function Feed(accepts: Acceptor, history: seq<Token>, ts: seq<Token>): Outcome
    decreases |ts|
  {
    if ts == [] then Outcome([], None)
    else if !accepts(history, ts[0]) then Outcome([], Some(Rejected(ts[0])))
    else
      var rest := Feed(accepts, history + [ts[0]], ts[1..]);
      Outcome([ts[0]] + rest.tokens, rest.err)
  }

  /** The open-tag stack after reading `ts` from `stack`, or None at an end tag that does not close the innermost open tag. */
  function Nest(ts: seq<Token>, stack: seq<string>): Option<seq<string>>
    decreases |ts|
  {
    if ts == [] then Some(stack)
    else match ts[0]
      case Start(n) => Nest(ts[1..], stack + [n])
      case End(n) =>
        if stack != [] && stack[|stack| - 1] == n then Nest(ts[1..], stack[..|stack| - 1]) else None
      case Chars(_) => Nest(ts[1..], stack)
  }

  /** Every end tag closes the innermost open tag, and every tag opened is closed. */
  predicate WellNested(ts: seq<Token>)
  {
    Nest(ts, []) == Some([])
  }

  // ---------------------------------------------------------------------
  // Lemmas
  // ---------------------------------------------------------------------

  /**
   * `Feed` yields the longest prefix of `ts` whose every token the encoder
   * accepts after the ones before it; it fails exactly when that prefix is
   * proper, with the error naming the refused token.
   */
  lemma FeedLongestAcceptedPrefix(accepts: Acceptor, history: seq<Token>, ts: seq<Token>)
    ensures var r := Feed(accepts, history, ts);
            && |r.tokens| <= |ts| && r.tokens == ts[..|r.tokens|]
            && (forall i :: 0 <= i < |r.tokens| ==> accepts(history + ts[..i], ts[i]))
            && (r.err.None? <==> r.tokens == ts)
            && (r.err.Some? ==>
                  |r.tokens| < |ts| && r.err.value == Rejected(ts[|r.tokens|])
                  && !accepts(history + r.tokens, ts[|r.tokens|]))
  {
    FeedPrefix(accepts, history, ts);
    FeedAccepted(accepts, history, ts);
  }

  /** `Feed` yields a prefix of `ts`, all of it exactly on success; on failure the error names the next token, refused. */
  lemma {:induction false} FeedPrefix(accepts: Acceptor, history: seq<Token>, ts: seq<Token>)
    ensures var r := Feed(accepts, history, ts);
            && |r.tokens| <= |ts| && r.tokens == ts[..|r.tokens|]
            && (r.err.None? <==> r.tokens == ts)
            && (r.err.Some? ==>
                  |r.tokens| < |ts| && r.err.value == Rejected(ts[|r.tokens|])
                  && !accepts(history + r.tokens, ts[|r.tokens|]))
    decreases |ts|
  {
    if ts != [] && accepts(history, ts[0]) {
      var h1 := history + [ts[0]];
      FeedPrefix(accepts, h1, ts[1..]);
      var rest := Feed(accepts, h1, ts[1..]);
      var r := Feed(accepts, history, ts);
      assert r.tokens == [ts[0]] + rest.tokens && r.err == rest.err;
      assert ts[..|r.tokens|] == [ts[0]] + ts[1..][..|rest.tokens|];
      assert r.tokens == ts <==> rest.tokens == ts[1..];
      assert history + r.tokens == h1 + rest.tokens;
    } else {
      assert history + [] == history;
    }
  }

  /** Every token `Feed` yields was accepted after the history and the tokens before it. */
  lemma {:induction false} FeedAccepted(accepts: Acceptor, history: seq<Token>, ts: seq<Token>)
    ensures var r := Feed(accepts, history, ts);
            forall i :: 0 <= i < |r.tokens| && i < |ts| ==> accepts(history + ts[..i], ts[i])
    decreases |ts|
  {
    if ts != [] && accepts(history, ts[0]) {
      var h1 := history + [ts[0]];
      FeedAccepted(accepts, h1, ts[1..]);
      var rest := Feed(accepts, h1, ts[1..]);
      var r := Feed(accepts, history, ts);
      assert |r.tokens| == 1 + |rest.tokens|;
      forall i | 0 <= i < |r.tokens| && i < |ts|
        ensures accepts(history + ts[..i], ts[i])
      {
        if i == 0 {
          assert history + ts[..i] == history;
        } else {
          assert ts[..i] == [ts[0]] + ts[1..][..i - 1];
          assert history + ts[..i] == h1 + ts[1..][..i - 1];
          assert ts[i] == ts[1..][i - 1];
        }
      }
    }
  }

  /** Feeding two sequences in turn is feeding their concatenation. */
  lemma {:induction false} FeedAppend(accepts: Acceptor, history: seq<Token>, xs: seq<Token>, ys: seq<Token>)
    ensures Feed(accepts, history, xs + ys)
            == (var r := Feed(accepts, history, xs);
                if r.err.Some? then r else Then(r, Feed(accepts, history + xs, ys)))
    decreases |xs|
  {
    if xs == [] {
      assert xs + ys == ys && history + [] == history;
      var r := Feed(accepts, history, ys);
      assert [] + r.tokens == r.tokens;
    } else if accepts(history, xs[0]) {
      assert (xs + ys)[1..] == xs[1..] + ys;
      FeedAppend(accepts, history + [xs[0]], xs[1..], ys);
      assert history + [xs[0]] + xs[1..] == history + xs;
    }
  }

  /** `recursiveEncode` emits exactly the longest accepted prefix of the flattened value. */
  lemma {:induction false} EncodeIsFeed(accepts: Acceptor, history: seq<Token>, v: Value)
    ensures Encode(accepts, history, v) == Feed(accepts, history, Flatten(v))
    decreases v
  {
    match v
    case Map(es) => EncodeEntriesIsFeed(accepts, history, es);
    case List(xs) => EncodeItemsIsFeed(accepts, history, xs);
    case Text(s) =>
    case Other =>
  }

  lemma {:induction false} EncodeEntriesIsFeed(accepts: Acceptor, history: seq<Token>, es: seq<Entry>)
    ensures EncodeEntries(accepts, history, es) == Feed(accepts, history, FlattenEntries(es))
    decreases es
  {
    if es != [] {
      EncodeEntryIsFeed(accepts, history, es[0]);
      var r := EncodeEntry(accepts, history, es[0]);
      FeedLongestAcceptedPrefix(accepts, history, FlattenEntry(es[0]));
      FeedAppend(accepts, history, FlattenEntry(es[0]), FlattenEntries(es[1..]));
      if r.err.None? {
        EncodeEntriesIsFeed(accepts, history + r.tokens, es[1..]);
      }
    }
  }

  lemma {:induction false} EncodeEntryIsFeed(accepts: Acceptor, history: seq<Token>, e: Entry)
    ensures EncodeEntry(accepts, history, e) == Feed(accepts, history, FlattenEntry(e))
    decreases e
  {
    var open, child, close := [Start(e.key)], Flatten(e.value), [End(e.key)];
    assert FlattenEntry(e) == open + (child + close);
    FeedAppend(accepts, history, open, child + close);
    if accepts(history, Start(e.key)) {
      EncodeIsFeed(accepts, history + open, e.value);
      FeedLongestAcceptedPrefix(accepts, history + open, child);
      FeedAppend(accepts, history + open, child, close);
      assert history + open + child == history + [Start(e.key)] + child;
    }
  }

  lemma {:induction false} EncodeItemsIsFeed(accepts: Acceptor, history: seq<Token>, xs: seq<Value>)
    ensures EncodeItems(accepts, history, xs) == Feed(accepts, history, FlattenItems(xs))
    decreases xs
  {
    if xs != [] {
      EncodeIsFeed(accepts, history, xs[0]);
      var r := Encode(accepts, history, xs[0]);
      FeedLongestAcceptedPrefix(accepts, history, Flatten(xs[0]));
      FeedAppend(accepts, history, Flatten(xs[0]), FlattenItems(xs[1..]));
      if r.err.None? {
        EncodeItemsIsFeed(accepts, history + r.tokens, xs[1..]);
      }
    }
  }

  /**
   * What `recursiveEncode` promises: on success it emitted the whole flattened
   * value; on failure it emitted a proper prefix of it, every token of which
   * was accepted, and the error names the next token, which was refused.
   */
  lemma EncodeStopsAtFirstRejection(accepts: Acceptor, history: seq<Token>, v: Value)
    ensures var r := Encode(accepts, history, v);
            var flat := Flatten(v);
            && (r.err.None? <==> r.tokens == flat)
            && |r.tokens| <= |flat| && r.tokens == flat[..|r.tokens|]
            && (forall i :: 0 <= i < |r.tokens| ==> accepts(history + flat[..i], flat[i]))
            && (r.err.Some? ==> |r.tokens| < |flat| && r.err.value == Rejected(flat[|r.tokens|])
                                && !accepts(history + r.tokens, flat[|r.tokens|]))
  {
    EncodeIsFeed(accepts, history, v);
    FeedLongestAcceptedPrefix(accepts, history, Flatten(v));
  }

  /**
   * The leaves of the walk: a string is exactly one character-data token
   * (or the error refusing it), and an empty map, an empty slice and a value
   * of any other kind emit nothing and succeed.
   */
  lemma EncodeLeaves(accepts: Acceptor, history: seq<Token>, s: string)
    ensures accepts(history, Chars(s)) ==> Encode(accepts, history, Text(s)) == Outcome([Chars(s)], None)
    ensures !accepts(history, Chars(s)) ==> Encode(accepts, history, Text(s)) == Outcome([], Some(Rejected(Chars(s))))
    ensures Encode(accepts, history, Map([])) == Outcome([], None)
    ensures Encode(accepts, history, List([])) == Outcome([], None)
    ensures Encode(accepts, history, Other) == Outcome([], None)
  {
  }

  /** Reading two token sequences in turn is reading their concatenation. */
  lemma {:induction false} NestAppend(xs: seq<Token>, ys: seq<Token>, stack: seq<string>)
    ensures Nest(xs + ys, stack) == match Nest(xs, stack)
                                    case None => None
                                    case Some(s) => Nest(ys, s)
    decreases |xs|
  {
    if xs == [] {
      assert xs + ys == ys;
    } else {
      assert (xs + ys)[0] == xs[0] && (xs + ys)[1..] == xs[1..] + ys;
      match xs[0]
      case Start(n) => NestAppend(xs[1..], ys, stack + [n]);
      case End(n) =>
        if stack != [] && stack[|stack| - 1] == n {
          NestAppend(xs[1..], ys, stack[..|stack| - 1]);
        }
      case Chars(_) => NestAppend(xs[1..], ys, stack);
    }
  }

  /** The flattened form of any value leaves the open-tag stack as it found it. */
  lemma {:induction false} FlattenBalanced(v: Value, stack: seq<string>)
    ensures Nest(Flatten(v), stack) == Some(stack)
    decreases v
  {
    match v
    case Map(es) => FlattenEntriesBalanced(es, stack);
    case List(xs) => FlattenItemsBalanced(xs, stack);
    case Text(s) =>
    case Other =>
  }

  lemma {:induction false} FlattenEntriesBalanced(es: seq<Entry>, stack: seq<string>)
    ensures Nest(FlattenEntries(es), stack) == Some(stack)
    decreases es
  {
    if es != [] {
      var e := es[0];
      NestAppend(FlattenEntry(e), FlattenEntries(es[1..]), stack);
      assert FlattenEntry(e) == [Start(e.key)] + (Flatten(e.value) + [End(e.key)]);
      NestAppend([Start(e.key)], Flatten(e.value) + [End(e.key)], stack);
      NestAppend(Flatten(e.value), [End(e.key)], stack + [e.key]);
      FlattenBalanced(e.value, stack + [e.key]);
      assert (stack + [e.key])[..|stack|] == stack;
      FlattenEntriesBalanced(es[1..], stack);
    }
  }

  lemma {:induction false} FlattenItemsBalanced(xs: seq<Value>, stack: seq<string>)
    ensures Nest(FlattenItems(xs), stack) == Some(stack)
    decreases xs
  {
    if xs != [] {
      NestAppend(Flatten(xs[0]), FlattenItems(xs[1..]), stack);
      FlattenBalanced(xs[0], stack);
      FlattenItemsBalanced(xs[1..], stack);
    }
  }

  /** A successful encoding is the flattened value, and it is well nested. */
  lemma EncodeSuccessWellNested(accepts: Acceptor, history: seq<Token>, v: Value)
    requires Encode(accepts, history, v).err.None?
    ensures Encode(accepts, history, v).tokens == Flatten(v)
    ensures WellNested(Encode(accepts, history, v).tokens)
  {
    EncodeIsFeed(accepts, history, v);
    FeedLongestAcceptedPrefix(accepts, history, Flatten(v));
    FlattenBalanced(v, []);
  }

  /** The map loop split after any prefix of the entries: later entries are visited only if the prefix succeeded. */
  lemma {:induction false} EncodeEntriesAppend(accepts: Acceptor, history: seq<Token>, xs: seq<Entry>, ys: seq<Entry>)
    ensures EncodeEntries(accepts, history, xs + ys)
            == (var r := EncodeEntries(accepts, history, xs);
                if r.err.Some? then r else Then(r, EncodeEntries(accepts, history + r.tokens, ys)))
    decreases |xs|
  {
    if xs == [] {
      assert xs + ys == ys && history + [] == history;
      var r := EncodeEntries(accepts, history, ys);
      assert [] + r.tokens == r.tokens;
    } else {
      var r := EncodeEntry(accepts, history, xs[0]);
      if r.err.None? {
        EncodeEntriesAppend(accepts, history + r.tokens, xs[1..], ys);
      }
      EntriesAppendStep(accepts, history, xs, ys);
    }
  }

  /** The step of `EncodeEntriesAppend` past the first entry of `xs`. */
  lemma EntriesAppendStep(accepts: Acceptor, history: seq<Token>, xs: seq<Entry>, ys: seq<Entry>)
    requires xs != []
    requires var r := EncodeEntry(accepts, history, xs[0]);
             r.err.None? ==>
               EncodeEntries(accepts, history + r.tokens, xs[1..] + ys)
               == (var r2 := EncodeEntries(accepts, history + r.tokens, xs[1..]);
                   if r2.err.Some? then r2 else Then(r2, EncodeEntries(accepts, history + r.tokens + r2.tokens, ys)))
    ensures EncodeEntries(accepts, history, xs + ys)
            == (var r := EncodeEntries(accepts, history, xs);
                if r.err.Some? then r else Then(r, EncodeEntries(accepts, history + r.tokens, ys)))
  {
    assert (xs + ys)[0] == xs[0] && (xs + ys)[1..] == xs[1..] + ys;
    var r := EncodeEntry(accepts, history, xs[0]);
    if r.err.None? {
      var r2 := EncodeEntries(accepts, history + r.tokens, xs[1..]);
      assert EncodeEntries(accepts, history, xs) == Then(r, r2);
      if r2.err.None? {
        assert history + r.tokens + r2.tokens == history + (r.tokens + r2.tokens);
        var r3 := EncodeEntries(accepts, history + r.tokens + r2.tokens, ys);
        assert r.tokens + (r2.tokens + r3.tokens) == (r.tokens + r2.tokens) + r3.tokens;
      }
    }
  }

  /** One more iteration of the map loop. */
  lemma EncodeEntriesStep(accepts: Acceptor, history: seq<Token>, es: seq<Entry>, i: nat)
    requires i < |es|
    ensures EncodeEntries(accepts, history, es[..i + 1])
            == (var r := EncodeEntries(accepts, history, es[..i]);
                if r.err.Some? then r else Then(r, EncodeEntry(accepts, history + r.tokens, es[i])))
  {
    assert es[..i + 1] == es[..i] + [es[i]];
    EncodeEntriesAppend(accepts, history, es[..i], [es[i]]);
    var r := EncodeEntries(accepts, history, es[..i]);
    if r.err.None? {
      var r1 := EncodeEntry(accepts, history + r.tokens, es[i]);
      if r1.err.None? {
        assert EncodeEntries(accepts, history + r.tokens + r1.tokens, []) == Outcome([], None);
        assert r1.tokens + [] == r1.tokens;
      }
    }
  }

  /** One iteration of the map loop after a prefix that succeeded: either the loop goes on, or it ends with this entry's error. */
  lemma MapLoopStep(accepts: Acceptor, history: seq<Token>, es: seq<Entry>, i: nat, done: Outcome, step: Outcome)
    requires i < |es| && done == EncodeEntries(accepts, history, es[..i]) && done.err.None?
    requires step == EncodeEntry(accepts, history + done.tokens, es[i])
    ensures step.err.None? ==> EncodeEntries(accepts, history, es[..i + 1]) == Outcome(done.tokens + step.tokens, None)
    ensures step.err.Some? ==> EncodeEntries(accepts, history, es) == Outcome(done.tokens + step.tokens, step.err)
  {
    EncodeEntriesStep(accepts, history, es, i);
    if step.err.Some? {
      EncodeEntriesStop(accepts, history, es, i + 1);
    }
  }

  /** Once an iteration of the map loop fails, the later entries are not visited. */
  lemma EncodeEntriesStop(accepts: Acceptor, history: seq<Token>, es: seq<Entry>, i: nat)
    requires i <= |es|
    requires EncodeEntries(accepts, history, es[..i]).err.Some?
    ensures EncodeEntries(accepts, history, es) == EncodeEntries(accepts, history, es[..i])
  {
    assert es == es[..i] + es[i..];
    EncodeEntriesAppend(accepts, history, es[..i], es[i..]);
  }

  /** The slice loop split after any prefix of the items: later items are encoded only if the prefix succeeded. */
  lemma {:induction false} EncodeItemsAppend(accepts: Acceptor, history: seq<Token>, xs: seq<Value>, ys: seq<Value>)
    ensures EncodeItems(accepts, history, xs + ys)
            == (var r := EncodeItems(accepts, history, xs);
                if r.err.Some? then r else Then(r, EncodeItems(accepts, history + r.tokens, ys)))
    decreases |xs|
  {
    if xs == [] {
      assert xs + ys == ys && history + [] == history;
      var r := EncodeItems(accepts, history, ys);
      assert [] + r.tokens == r.tokens;
    } else {
      assert (xs + ys)[0] == xs[0] && (xs + ys)[1..] == xs[1..] + ys;
      var r := Encode(accepts, history, xs[0]);
      if r.err.None? {
        EncodeItemsAppend(accepts, history + r.tokens, xs[1..], ys);
        var r2 := EncodeItems(accepts, history + r.tokens, xs[1..]);
        assert history + r.tokens + r2.tokens == history + (r.tokens + r2.tokens);
      }
    }
  }

  // ---------------------------------------------------------------------
  // Reading a body back
  // ---------------------------------------------------------------------

  /** A parameter map whose every value is a string or, recursively, such a map. */
  predicate TextTree(es: seq<Entry>)
    decreases es
  {
    es == [] || (TextTreeEntry(es[0]) && TextTree(es[1..]))
  }

  predicate TextTreeEntry(e: Entry)
    decreases e
  {
    match e.value
    case Text(_) => true
    case Map(cs) => TextTree(cs)
    case _ => false
  }

  /** What was read from the front of a token sequence, and the tokens after it. */
  datatype Parsed<T> = Parsed(value: T, rest: seq<Token>)

  /**
   * Reads a run of entries from the front of `ts`.  The run stops at the end
   * of the tokens or before any token that is not a start tag.
   */
  function ParseEntries(ts: seq<Token>): (r: Option<Parsed<seq<Entry>>>)
    ensures r.Some? ==> |r.value.rest| <= |ts|
    decreases |ts|, 1
  {
    if ts == [] || !ts[0].Start? then Some(Parsed([], ts))
    else
      match ParseEntry(ts)
      case None => None
      case Some(e) =>
        match ParseEntries(e.rest)
        case None => None
        case Some(es) => Some(Parsed([e.value] + es.value, es.rest))
  }

  /**
   * Reads one entry: a start tag, then either one character-data token or a
   * run of entries, then the matching end tag.  None when the entry is not
   * closed by its own end tag.
   */
  function ParseEntry(ts: seq<Token>): (r: Option<Parsed<Entry>>)
    requires ts != [] && ts[0].Start?
    ensures r.Some? ==> |r.value.rest| < |ts|
    decreases |ts|, 0
  {
    var k := ts[0].name;
    if |ts| >= 3 && ts[1].Chars? && ts[2] == End(k) then
      Some(Parsed(Entry(k, Text(ts[1].data)), ts[3..]))
    else
      match ParseEntries(ts[1..])
      case None => None
      case Some(c) =>
        if c.rest != [] && c.rest[0] == End(k) then Some(Parsed(Entry(k, Map(c.value)), c.rest[1..]))
        else None
  }

  /** Reads a whole body back as the entries of a parameter map, or None when it is not one. */
  function Unflatten(ts: seq<Token>): Option<seq<Entry>>
  {
    match ParseEntries(ts)
    case None => None
    case Some(p) => if p.rest == [] then Some(p.value) else None
  }

  /** What may follow a run of entries in a flattened map: nothing, or an end tag. */
  predicate EndsRun(ts: seq<Token>)
  {
    ts == [] || ts[0].End?
  }

  /** The tokens of a nested map of strings, followed by an end tag or nothing, read back as that map. */
  lemma {:induction false} ParseFlattenEntries(es: seq<Entry>, tail: seq<Token>)
    requires TextTree(es) && EndsRun(tail)
    ensures ParseEntries(FlattenEntries(es) + tail) == Some(Parsed(es, tail))
    decreases es
  {
    if es == [] {
      assert FlattenEntries(es) + tail == tail;
    } else {
      var after := FlattenEntries(es[1..]) + tail;
      assert FlattenEntries(es) + tail == FlattenEntry(es[0]) + after;
      ParseFlattenEntry(es[0], after);
      ParseFlattenEntries(es[1..], tail);
      assert [es[0]] + es[1..] == es;
    }
  }

  /** One entry of a nested map of strings is read back in front of whatever follows it. */
  lemma {:induction false} ParseFlattenEntry(e: Entry, after: seq<Token>)
    requires TextTreeEntry(e)
    ensures FlattenEntry(e) + after != [] && (FlattenEntry(e) + after)[0].Start?
    ensures ParseEntry(FlattenEntry(e) + after) == Some(Parsed(e, after))
    decreases e
  {
    match e.value
    case Text(s) =>
      var ts := FlattenEntry(e) + after;
      assert FlattenEntry(e) == [Start(e.key)] + [Chars(s)] + [End(e.key)];
      assert ts == [Start(e.key), Chars(s), End(e.key)] + after;
      assert ts[3..] == after;
    case Map(cs) =>
      var inner := [End(e.key)] + after;
      ParseFlattenEntries(cs, inner);
      FirstAfterStart(e.key, cs, inner);
      assert FlattenEntry(e) == [Start(e.key)] + FlattenEntries(cs) + [End(e.key)];
      ParseMapEntry(e.key, cs, FlattenEntries(cs), after);
  }

  /** An entry holding a map, its children read back from their tokens `body`, is read back in front of what follows it. */
  lemma ParseMapEntry(k: string, cs: seq<Entry>, body: seq<Token>, after: seq<Token>)
    requires body + ([End(k)] + after) != [] && !(body + ([End(k)] + after))[0].Chars?
    requires ParseEntries(body + ([End(k)] + after)) == Some(Parsed(cs, [End(k)] + after))
    ensures ParseEntry([Start(k)] + body + [End(k)] + after) == Some(Parsed(Entry(k, Map(cs)), after))
  {
    var inner := [End(k)] + after;
    var ts := [Start(k)] + body + [End(k)] + after;
    assert ts == [Start(k)] + (body + inner);
    assert ts[1..] == body + inner;
    assert ts[1] == (body + inner)[0];
    assert inner[1..] == after;
  }

  /** After the start tag of an entry holding a map comes a start tag or an end tag, never character data. */
  lemma FirstAfterStart(k: string, cs: seq<Entry>, inner: seq<Token>)
    requires inner != [] && inner[0] == End(k)
    ensures (FlattenEntries(cs) + inner)[0] == if cs == [] then End(k) else Start(cs[0].key)
  {
    if cs != [] {
      assert FlattenEntries(cs) == [Start(cs[0].key)] + (Flatten(cs[0].value) + [End(cs[0].key)]) + FlattenEntries(cs[1..]);
    } else {
      assert FlattenEntries(cs) + inner == inner;
    }
  }

  /** Whatever `ParseEntries` reads is a nested map of strings whose tokens are exactly the tokens it consumed. */
  lemma {:induction false} ParseEntriesSound(ts: seq<Token>)
    ensures ParseEntries(ts).Some? ==>
              var r := ParseEntries(ts).value;
              ts == FlattenEntries(r.value) + r.rest && TextTree(r.value)
    decreases |ts|, 1
  {
    if ts == [] || !ts[0].Start? {
      assert FlattenEntries([]) + ts == ts;
    } else if ParseEntries(ts).Some? {
      var e := ParseEntry(ts).value;
      ParseEntrySound(ts);
      ParseEntriesSound(e.rest);
      var es := ParseEntries(e.rest).value;
      assert ParseEntries(ts).value == Parsed([e.value] + es.value, es.rest);
      EntriesCons(ts, e, es);
    }
  }

  /** An entry read in front of a run of entries: together they are a run, read from the tokens of both. */
  lemma EntriesCons(ts: seq<Token>, e: Parsed<Entry>, es: Parsed<seq<Entry>>)
    requires ts == FlattenEntry(e.value) + e.rest && TextTreeEntry(e.value)
    requires e.rest == FlattenEntries(es.value) + es.rest && TextTree(es.value)
    ensures ts == FlattenEntries([e.value] + es.value) + es.rest && TextTree([e.value] + es.value)
  {
    var all := [e.value] + es.value;
    assert all[0] == e.value && all[1..] == es.value;
    assert FlattenEntries(all) == FlattenEntry(e.value) + FlattenEntries(es.value);
  }

  /** Whatever `ParseEntry` reads is an entry of a nested map of strings whose tokens are exactly the tokens it consumed. */
  lemma {:induction false} ParseEntrySound(ts: seq<Token>)
    requires ts != [] && ts[0].Start?
    ensures ParseEntry(ts).Some? ==>
              var r := ParseEntry(ts).value;
              ts == FlattenEntry(r.value) + r.rest && TextTreeEntry(r.value)
    decreases |ts|, 0
  {
    var k := ts[0].name;
    if |ts| >= 3 && ts[1].Chars? && ts[2] == End(k) {
      TextEntryTokens(ts);
    } else if ParseEntry(ts).Some? {
      ParseEntriesSound(ts[1..]);
      var c := ParseEntries(ts[1..]).value;
      MapEntryTokens(k, ts[1..], c);
    }
  }

  /** The three tokens an entry holding a string is read from. */
  lemma TextEntryTokens(ts: seq<Token>)
    requires |ts| >= 3 && ts[0].Start? && ts[1].Chars? && ts[2] == End(ts[0].name)
    ensures ts == FlattenEntry(Entry(ts[0].name, Text(ts[1].data))) + ts[3..]
  {
    var e := Entry(ts[0].name, Text(ts[1].data));
    assert FlattenEntry(e) == [ts[0]] + [ts[1]] + [ts[2]];
    assert ts == [ts[0]] + [ts[1]] + [ts[2]] + ts[3..];
  }

  /** The tokens an entry holding a map is read from: its start tag, the run of its children, its end tag. */
  lemma MapEntryTokens(k: string, ts: seq<Token>, c: Parsed<seq<Entry>>)
    requires ts == FlattenEntries(c.value) + c.rest && c.rest != [] && c.rest[0] == End(k)
    ensures [Start(k)] + ts == FlattenEntry(Entry(k, Map(c.value))) + c.rest[1..]
  {
    assert c.rest == [End(k)] + c.rest[1..];
    assert FlattenEntry(Entry(k, Map(c.value))) == [Start(k)] + FlattenEntries(c.value) + [End(k)];
  }

  /** A body built from a nested map of strings reads back as exactly that map. */
  lemma UnflattenFlatten(es: seq<Entry>)
    requires TextTree(es)
    ensures Unflatten(Flatten(Map(es))) == Some(es)
  {
    ParseFlattenEntries(es, []);
    assert FlattenEntries(es) + [] == FlattenEntries(es);
  }

  /** Conversely, whatever a body reads back as is a nested map of strings whose tokens are exactly that body. */
  lemma FlattenUnflatten(ts: seq<Token>)
    ensures Unflatten(ts).Some? ==> TextTree(Unflatten(ts).value) && Flatten(Map(Unflatten(ts).value)) == ts
  {
    ParseEntriesSound(ts);
    if Unflatten(ts).Some? {
      assert ts == FlattenEntries(Unflatten(ts).value) + [];
    }
  }

  // ---------------------------------------------------------------------
  // The encoder and the encoding, as code
  // ---------------------------------------------------------------------

  /** The XML encoder: accepted tokens wait in its write buffer until `Flush`. */
  class TokenEncoder {
    const accepts: Acceptor
    var flushed: seq<Token>
    var pending: seq<Token>

    constructor (accepts: Acceptor)
      ensures this.accepts == accepts && flushed == [] && pending == []
    {
      this.accepts := accepts;
      flushed, pending := [], [];
    }

    /** Every token the encoder has accepted so far. */
    function Accepted(): seq<Token>
      reads this
    {
      flushed + pending
    }

    method EncodeToken(t: Token) returns (err: Option<Error>)
      modifies this
      ensures flushed == old(flushed)
      ensures pending == old(pending) + Emit(accepts, old(Accepted()), t).tokens
      ensures err == Emit(accepts, old(Accepted()), t).err
    {
      if accepts(flushed + pending, t) {
        pending := pending + [t];
        err := None;
      } else {
        err := Some(Rejected(t));
      }
    }

    method Flush()
      modifies this
      ensures flushed == old(flushed) + old(pending) && pending == []
    {
      flushed, pending := flushed + pending, [];
    }
  }

  /** `recursiveEncode`: walks the value, feeding its tokens to `e`, and stops at the first error. */
  method RecursiveEncode(e: TokenEncoder, v: Value) returns (err: Option<Error>)
    modifies e
    ensures e.flushed == old(e.flushed)
    ensures e.pending == old(e.pending) + Encode(e.accepts, old(e.Accepted()), v).tokens
    ensures err == Encode(e.accepts, old(e.Accepted()), v).err
    decreases v, 1
  {
    match v
    case Map(es) =>
      err := EncodeMapEntries(e, es);
    case List(xs) =>
      err := EncodeSliceItems(e, xs);
    case Text(s) =>
      err := e.EncodeToken(Chars(s));
    case Other =>
      err := None;
  }

  /** The map case: each key's start tag, its value and its end tag, breaking out at the first error. */
  method EncodeMapEntries(e: TokenEncoder, es: seq<Entry>) returns (err: Option<Error>)
    modifies e
    ensures e.flushed == old(e.flushed)
    ensures e.pending == old(e.pending) + EncodeEntries(e.accepts, old(e.Accepted()), es).tokens
    ensures err == EncodeEntries(e.accepts, old(e.Accepted()), es).err
    decreases es, 0
  {
    ghost var h0, p0 := e.Accepted(), e.pending;
    err := None;
    var i := 0;
    while i < |es|
      invariant 0 <= i <= |es|
      invariant e.flushed == old(e.flushed)
      invariant EncodeEntries(e.accepts, h0, es[..i]).err.None?
      invariant e.pending == p0 + EncodeEntries(e.accepts, h0, es[..i]).tokens
      invariant err.None?
    {
      ghost var done := EncodeEntries(e.accepts, h0, es[..i]);
      ghost var step := EncodeEntry(e.accepts, h0 + done.tokens, es[i]);
      assert e.Accepted() == h0 + done.tokens;
      err := EncodeMapEntry(e, es[i]);
      assert e.pending == p0 + (done.tokens + step.tokens);
      MapLoopStep(e.accepts, h0, es, i, done, step);
      if err.Some? {
        break;
      }
      i := i + 1;
    }
    if err.None? {
      assert es[..i] == es;
    }
  }

  /** One iteration of the map loop: the start tag, then the value, then the end tag, each only while there is no error. */
  method EncodeMapEntry(e: TokenEncoder, entry: Entry) returns (err: Option<Error>)
    modifies e
    ensures e.flushed == old(e.flushed)
    ensures e.pending == old(e.pending) + EncodeEntry(e.accepts, old(e.Accepted()), entry).tokens
    ensures err == EncodeEntry(e.accepts, old(e.Accepted()), entry).err
    decreases entry, 0
  {
    ghost var h, p0 := e.Accepted(), e.pending;
    var k := entry.key;
    ghost var open := Emit(e.accepts, h, Start(k));
    err := e.EncodeToken(Start(k));
    if err.None? {
      ghost var child := Encode(e.accepts, h + open.tokens, entry.value);
      assert e.Accepted() == h + open.tokens;
      err := RecursiveEncode(e, entry.value);
      assert e.pending == p0 + open.tokens + child.tokens;
      if err.None? {
        assert e.Accepted() == h + open.tokens + child.tokens;
        err := e.EncodeToken(End(k));
      }
    }
  }

  /** The slice case: the items in index order with no wrapping tag, while no error has occurred. */
  method EncodeSliceItems(e: TokenEncoder, xs: seq<Value>) returns (err: Option<Error>)
    modifies e
    ensures e.flushed == old(e.flushed)
    ensures e.pending == old(e.pending) + EncodeItems(e.accepts, old(e.Accepted()), xs).tokens
    ensures err == EncodeItems(e.accepts, old(e.Accepted()), xs).err
    decreases xs, 0
  {
    ghost var h0, p0 := e.Accepted(), e.pending;
    err := None;
    var i := 0;
    while i < |xs| && err.None?
      invariant 0 <= i <= |xs|
      invariant e.flushed == old(e.flushed)
      invariant err == EncodeItems(e.accepts, h0, xs[..i]).err
      invariant e.pending == p0 + EncodeItems(e.accepts, h0, xs[..i]).tokens
    {
      assert e.Accepted() == h0 + EncodeItems(e.accepts, h0, xs[..i]).tokens;
      err := RecursiveEncode(e, xs[i]);
      assert xs[..i + 1] == xs[..i] + [xs[i]];
      EncodeItemsAppend(e.accepts, h0, xs[..i], [xs[i]]);
      i := i + 1;
    }
    assert xs == xs[..i] + xs[i..];
    EncodeItemsAppend(e.accepts, h0, xs[..i], xs[i..]);
  }

  /**
   * `buildData`: encodes the parameters with a fresh encoder and flushes it
   * only on success, so on failure nothing of the body reaches the buffer.
   */
  method BuildData(accepts: Acceptor, params: seq<Entry>) returns (body: seq<Token>, err: Option<Error>)
    ensures err == Encode(accepts, [], Map(params)).err
    ensures err.None? ==> body == Flatten(Map(params)) && WellNested(body)
    ensures err.Some? ==> body == []
  {
    var e := new TokenEncoder(accepts);
    assert e.Accepted() == [];
    err := RecursiveEncode(e, Map(params));
    if err.None? {
      e.Flush();
      EncodeSuccessWellNested(accepts, [], Map(params));
    }
    body := e.flushed;
  }

}
