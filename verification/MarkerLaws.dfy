/** What injection and removal of marked blocks promise. */
module MarkerLaws {
  import opened Sequences
  import opened Substrings
  import opened MarkerHeader
  import opened Markers

  // ---- Facts about the sentinels ----

  lemma SentinelFacts()
    ensures |START| == 17 && |END| == 18 && |CLOSE| == 3
    ensures START[0] == '<' && Free(START[1..], '<') && Free(START, '\n')
    ensures END[0] == '<' && Free(END[1..], '<') && Free(END, '\n')
    ensures Free(START, '>') && Free(START, 'd') && END[13] == 'd' && Free(END[1..], 'v')
  {
    StartFacts();
    EndFacts();
  }

  lemma StartFacts()
    ensures |START| == 17 && START[0] == '<' && Free(START[1..], '<')
    ensures Free(START, '\n') && Free(START, '>') && Free(START, 'd')
  {
  }

  lemma EndFacts()
    ensures |END| == 18 && END[0] == '<' && END[13] == 'd' && Free(END[1..], '<')
    ensures Free(END, '\n') && Free(END[1..], 'v')
  {
  }

  lemma CloseFacts()
    ensures CLOSE[0] == '-' && CLOSE[2] == '>' && Free(CLOSE, ' ') && Free(CLOSE, '<') && Free(CLOSE, '\n')
  {
  }

  /** The part of a header between its prefix and its close. */
  function Label(hash: string): string {
    "v" + VERSION + " " + ("sha256=" + hash) + " "
  }

  lemma LabelPoints(hash: string, i: nat)
    requires i < |Label(hash)|
    ensures Label(hash)[i] == if i < 12 then "v1.0 sha256="[i] else if i < 12 + |hash| then hash[i - 12] else ' '
    ensures |Label(hash)| == 13 + |hash|
  {
  }

  lemma LabelFacts(hash: string)
    requires Hex(hash)
    ensures |Label(hash)| > 0 && Label(hash)[0] == 'v' && Label(hash)[|Label(hash)| - 1] == ' '
    ensures Free(Label(hash), '-') && Free(Label(hash), '<') && Free(Label(hash), '>')
  {
    forall i | 0 <= i < |Label(hash)|
      ensures Label(hash)[i] != '-' && Label(hash)[i] != '<' && Label(hash)[i] != '>'
    {
      LabelPoints(hash, i);
    }
    LabelPoints(hash, |Label(hash)| - 1);
  }

  lemma HeaderParts(hash: string)
    ensures Header(hash) == START + (Label(hash) + CLOSE)
  {
  }

  // ---- Finding a block ----

  /** A sentinel that begins with a character it does not repeat is found behind a text without it. */
  lemma SentinelFound<T>(pre: seq<T>, mid: seq<T>, n: seq<T>, after: seq<T>)
    requires n != [] && Free(n[1..], n[0]) && !Contains(mid, n)
    ensures FindFrom(pre + (mid + (n + after)), n, |pre|) == Some(|pre| + |mid|)
  {
    assert (n + after)[0] == n[0];
    FoundAt(pre, mid, n, after);
  }

  lemma CloseFound<T>(pre: seq<T>, tag: seq<T>, close: seq<T>, after: seq<T>)
    requires close != [] && tag != [] && Free(tag, close[0]) && Free(close, tag[|tag| - 1])
    ensures FindFrom(pre + (tag + (close + after)), close, |pre|) == Some(|pre| + |tag|)
  {
    FreeLacks(tag, close, 0);
    assert Free(close[..|close| - 1], tag[|tag| - 1]);
    FoundAt(pre, tag, close, after);
  }

  /** What makes the pieces of a block tell each other apart. */
  ghost predicate Apart<T>(start: seq<T>, tag: seq<T>, close: seq<T>, end: seq<T>) {
    && start != [] && Free(start[1..], start[0])
    && end != [] && Free(end[1..], end[0])
    && close != [] && tag != [] && Free(tag, close[0]) && Free(close, tag[|tag| - 1])
  }

  lemma FirstSearch<T>(pre: seq<T>, start: seq<T>, after: seq<T>)
    requires start != [] && Free(start[1..], start[0]) && !Contains(pre, start)
    ensures FindFrom(pre + (start + after), start, 0) == Some(|pre|)
  {
    assert (start + after)[0] == start[0];
    FoundFirst(pre, start, after);
  }

  lemma LocateIs<T>(text: seq<T>, start: seq<T>, close: seq<T>, end: seq<T>, span: Span, c: nat)
    requires FindFrom(text, start, 0) == Some(span.start)
    requires FindFrom(text, close, span.start + |start|) == Some(c) && span.from == c + |close|
    requires FindFrom(text, end, span.from) == Some(span.to)
    ensures Locate(text, start, close, end) == Some(span)
  {
  }

  lemma CloseSearch<T>(text: seq<T>, pre: seq<T>, start: seq<T>, tag: seq<T>, close: seq<T>, rest: seq<T>)
    requires text == pre + (start + (tag + (close + rest)))
    requires close != [] && tag != [] && Free(tag, close[0]) && Free(close, tag[|tag| - 1])
    ensures FindFrom(text, close, |pre| + |start|) == Some(|pre| + |start| + |tag|)
  {
    Assoc(pre, start, tag + (close + rest));
    CloseFound(pre + start, tag, close, rest);
  }

  lemma EndSearch<T>(text: seq<T>, pre: seq<T>, head: seq<T>, body: seq<T>, end: seq<T>, tail: seq<T>)
    requires text == pre + (head + (body + (end + tail)))
    requires end != [] && Free(end[1..], end[0]) && !Contains(body, end)
    ensures FindFrom(text, end, |pre| + |head|) == Some(|pre| + |head| + |body|)
  {
    Assoc(pre, head, body + (end + tail));
    SentinelFound(pre + head, body, end, tail);
  }

  lemma HeadCuts<T>(start: seq<T>, tag: seq<T>, close: seq<T>, rest: seq<T>)
    ensures (start + (tag + close)) + rest == start + (tag + (close + rest))
  {
  }

  /** The three searches find the pieces of a block where they are. */
  lemma Located<T>(
    text: seq<T>, pre: seq<T>, start: seq<T>, tag: seq<T>, close: seq<T>, body: seq<T>, end: seq<T>, tail: seq<T>)
    requires text == pre + ((start + (tag + close)) + (body + (end + tail)))
    requires Apart(start, tag, close, end) && !Contains(pre, start) && !Contains(body, end)
    ensures
      var from := |pre| + |start + (tag + close)|;
      Locate(text, start, close, end) == Some(Span(|pre|, from, from + |body|))
  {
    var rest := body + (end + tail);
    HeadCuts(start, tag, close, rest);
    FirstSearch(pre, start, tag + (close + rest));
    CloseSearch(text, pre, start, tag, close, rest);
    EndSearch(text, pre, start + (tag + close), body, end, tail);
    var from := |pre| + |start + (tag + close)|;
    LocateIs(text, start, close, end, Span(|pre|, from, from + |body|), |pre| + |start| + |tag|);
  }

  /** A text with a block in it. */
  function Laid(pre: string, hash: string, body: string, tail: string): string {
    pre + (Header(hash) + (body + (END + tail)))
  }

  lemma PiecesApart(hash: string)
    requires Hex(hash)
    ensures Apart(START, Label(hash), CLOSE, END)
  {
    SentinelFacts();
    CloseFacts();
    LabelFacts(hash);
  }

  lemma LaidSlices(pre: string, head: string, body: string, end: string)
    ensures
      var text := pre + (head + (body + end));
      && text[..|pre|] == pre
      && text[|pre|..|pre| + |head|] == head
      && text[|pre| + |head|..|pre| + |head| + |body|] == body
      && text[|pre| + |head| + |body|..] == end
  {
  }

  function BlockWith(start: nat, head: nat, hash: string, body: string): Block {
    Block(start, start + head + |body| + |END|, body, VERSION, Some(hash))
  }

  function BlockAt(start: nat, hash: string, body: string): Block {
    BlockWith(start, |Header(hash)|, hash, body)
  }

  lemma HexPlain(hash: string)
    requires Hex(hash)
    ensures Plain(hash)
  {
  }

  lemma LaidLocated(pre: string, hash: string, body: string, tail: string)
    requires !Contains(pre, START) && Hex(hash) && !Contains(body, END)
    ensures
      var from := |pre| + |Header(hash)|;
      Locate(Laid(pre, hash, body, tail), START, CLOSE, END) == Some(Span(|pre|, from, from + |body|))
  {
    PiecesApart(hash);
    HeaderParts(hash);
    Located(Laid(pre, hash, body, tail), pre, START, Label(hash), CLOSE, body, END, tail);
  }

  lemma BlockIs(text: string, span: Span, header: string, parsed: Parsed, body: string)
    requires Locate(text, START, CLOSE, END) == Some(span)
    requires text[span.start..span.from] == header && text[span.from..span.to] == body
    requires ParseStartHeader(header) == parsed
    ensures FindBlock(text) == Some(BlockOf(span, parsed, body))
  {
  }

  lemma BlockCut(text: string, pre: string, head: string, hash: string, body: string, end: string)
    requires text == pre + (head + (body + end)) && ParseStartHeader(head) == Parsed(VERSION, Some(hash))
    requires Locate(text, START, CLOSE, END) == Some(Span(|pre|, |pre| + |head|, |pre| + |head| + |body|))
    ensures FindBlock(text) == Some(BlockWith(|pre|, |head|, hash, body))
  {
    LaidSlices(pre, head, body, end);
    BlockIs(text, Span(|pre|, |pre| + |head|, |pre| + |head| + |body|), head, Parsed(VERSION, Some(hash)), body);
  }

  lemma HexHeader(hash: string)
    requires Hex(hash)
    ensures ParseStartHeader(Header(hash)) == Parsed(VERSION, Some(hash))
  {
    HexPlain(hash);
    HeaderRoundTrip(hash);
  }

  /** A block behind a text without a start sentinel is found, with its body and its recorded hash. */
  lemma LaidIsFound(pre: string, hash: string, body: string, tail: string)
    requires !Contains(pre, START) && Hex(hash) && !Contains(body, END)
    ensures FindBlock(Laid(pre, hash, body, tail)) == Some(BlockAt(|pre|, hash, body))
  {
    LaidLocated(pre, hash, body, tail);
    HexHeader(hash);
    BlockCut(Laid(pre, hash, body, tail), pre, Header(hash), hash, body, END + tail);
  }

  // ---- Injection ----

  /** The same text, read as a rendered block between what comes before and after it. */
  lemma LaidRendered(digest: Digest, pre: string, body: string, tail: string)
    ensures pre + Rendered(digest, body) + tail
         == Laid(pre, HexLower(digest(Normalised(body))), Normalised(body), tail)
  {
    var head, mid := Header(HexLower(digest(Normalised(body)))), Normalised(body);
    FourParts(pre, head, mid, END, tail);
  }

  lemma FourParts<T>(pre: seq<T>, head: seq<T>, mid: seq<T>, end: seq<T>, tail: seq<T>)
    ensures pre + (head + mid + end) + tail == pre + (head + (mid + (end + tail)))
  {
    Assoc(head, mid, end);
    Assoc(pre, head, mid + end);
    Assoc(pre + head, mid + end, tail);
    Assoc(mid, end, tail);
    Assoc(pre, head, mid + (end + tail));
  }

  lemma NewlineLacks()
    ensures !Contains("\n", END) && !Contains("\n", START) && !Contains("\n\n", START) && !Contains("\n\n", END)
  {
    SentinelFacts();
  }

  lemma NewlineBefore(a: string, n: string)
    requires n != "" && Free(n, '\n') && !Contains("\n", n) && !Contains(a, n)
    ensures !Contains("\n" + a, n)
  {
    assert Free(n[..|n| - 1], '\n');
    JoinLacks("\n", a, n);
  }

  lemma NewlineAfter(a: string, b: string, n: string)
    requires n != "" && Free(n, '\n') && b != "" && b[0] == '\n' && !Contains(b, n) && !Contains(a, n)
    ensures !Contains(a + b, n)
  {
    assert Free(n[1..], '\n');
    JoinLacks(a, b, n);
  }

  /** Putting a body on lines of its own makes no end sentinel. */
  lemma NormalisedLacks(body: string)
    requires !Contains(body, END)
    ensures !Contains(Normalised(body), END)
  {
    SentinelFacts();
    NewlineLacks();
    NewlineBefore(body, END);
    assert "" + body == body;
    NewlineAfter("\n" + body, "\n", END);
    NewlineAfter(body, "\n", END);
  }

  lemma SeparatorLacks(text: string)
    requires !Contains(text, START)
    ensures !Contains(text + Separator(text), START)
  {
    SentinelFacts();
    NewlineLacks();
    assert text + "" == text;
    NewlineAfter(text, "\n", START);
    NewlineAfter(text, "\n\n", START);
  }

  /** An injected block is found, with its normalised body and the hash of it, whatever surrounds it. */
  lemma FindRecovers(digest: Digest, pre: string, body: string, tail: string)
    requires !Contains(pre, START) && !Contains(body, END)
    ensures FindBlock(pre + Rendered(digest, body) + tail)
         == Some(BlockAt(|pre|, HexLower(digest(Normalised(body))), Normalised(body)))
  {
    LaidRendered(digest, pre, body, tail);
    NormalisedLacks(body);
    HexIsHex(digest(Normalised(body)));
    LaidIsFound(pre, HexLower(digest(Normalised(body))), Normalised(body), tail);
  }

  lemma InjectedWhenFound(digest: Digest, text: string, body: string, force: bool, f: Block)
    requires FindBlock(text) == Some(f)
    ensures Injected(digest, text, body, force) == Replaced(digest, text, f, body, force)
  {
  }

  lemma RenderedLength(digest: Digest, body: string)
    ensures |Rendered(digest, body)| == |Header(HexLower(digest(Normalised(body))))| + |Normalised(body)| + |END|
  {
  }

  lemma Slices3<T>(a: seq<T>, b: seq<T>, c: seq<T>)
    ensures (a + b + c)[..|a|] == a && (a + b + c)[|a| + |b|..] == c
  {
  }

  /** Injecting over an untouched block swaps the block and keeps all the text around it. */
  lemma InjectReplaces(digest: Digest, pre: string, was: string, body: string, tail: string, force: bool)
    requires !Contains(pre, START) && !Contains(was, END)
    ensures Injected(digest, pre + Rendered(digest, was) + tail, body, force) == Ok(pre + Rendered(digest, body) + tail)
  {
    FindRecovers(digest, pre, was, tail);
    var f := BlockAt(|pre|, HexLower(digest(Normalised(was))), Normalised(was));
    RenderedLength(digest, was);
    Slices3(pre, Rendered(digest, was), tail);
    InjectedWhenFound(digest, pre + Rendered(digest, was) + tail, body, force, f);
  }
}
