/** A start sentinel without a block: injecting again then swallows the text behind it. */
module MarkerStrays {
  import opened Sequences
  import opened Substrings
  import opened MarkerHeader
  import opened Markers
  import opened MarkerLaws
  import opened MarkerCycles

  lemma FindKeeps<T>(a: seq<T>, b: seq<T>, n: seq<T>, from: nat)
    requires FindFrom(a, n, from).Some?
    ensures FindFrom(a + b, n, from) == FindFrom(a, n, from)
  {
    FindMeans(a, n, from);
    var at := FindFrom(a, n, from).value;
    OccursLeft(a, b, n, at);
    forall p: nat | from <= p < at
      ensures !OccursAt(a + b, n, p)
    {
      OccursLeft(a, b, n, p);
    }
    FindIs(a + b, n, from, at);
  }

  lemma FindNone<T>(text: seq<T>, n: seq<T>, from: nat)
    requires forall p: nat :: from <= p ==> !OccursAt(text, n, p)
    ensures FindFrom(text, n, from) == None
  {
    FindMeans(text, n, from);
  }

  /** Text without the needle, joined where no needle can lie across, adds no occurrence. */
  lemma FindAppend<T>(a: seq<T>, b: seq<T>, n: seq<T>, from: nat)
    requires n != [] && Seam(a, b, n) && !Contains(b, n)
    ensures FindFrom(a + b, n, from) == FindFrom(a, n, from)
  {
    FindMeans(a, n, from);
    if FindFrom(a, n, from).Some? {
      FindKeeps(a, b, n, from);
    } else {
      forall p: nat | from <= p
        ensures !OccursAt(a + b, n, p)
      {
        if p + |n| <= |a| {
          OccursLeft(a, b, n, p);
        } else if p < |a| {
          NothingAcross(a, b, n, p);
        } else {
          OccursRight(a, b, n, p);
        }
      }
      FindNone(a + b, n, from);
    }
  }

  lemma LocateAppend<T>(a: seq<T>, b: seq<T>, start: seq<T>, close: seq<T>, end: seq<T>)
    requires start != [] && Seam(a, b, start) && !Contains(b, start)
    requires close != [] && Seam(a, b, close) && !Contains(b, close)
    requires end != [] && Seam(a, b, end) && !Contains(b, end)
    ensures Locate(a + b, start, close, end) == Locate(a, start, close, end)
  {
    FindAppend(a, b, start, 0);
    var s := FindFrom(a, start, 0);
    var from := if s.Some? then s.value + |start| else 0;
    FindAppend(a, b, close, from);
    var c := FindFrom(a, close, from);
    FindAppend(a, b, end, if c.Some? then c.value + |close| else 0);
    SameLocated(a + b, a, start, close, end);
  }

  lemma SameLocated<T>(x: seq<T>, y: seq<T>, start: seq<T>, close: seq<T>, end: seq<T>)
    requires FindFrom(x, start, 0) == FindFrom(y, start, 0)
    requires
      var s := FindFrom(y, start, 0);
      var from := if s.Some? then s.value + |start| else 0;
      var c := FindFrom(y, close, from);
      var to := if c.Some? then c.value + |close| else 0;
      FindFrom(x, close, from) == c && FindFrom(x, end, to) == FindFrom(y, end, to)
    ensures Locate(x, start, close, end) == Locate(y, start, close, end)
  {
  }

  /** What keeps a search that begins before a block from ending inside its header. */
  ghost predicate SetApart<T>(start: seq<T>, tag: seq<T>, close: seq<T>, body: seq<T>, end: seq<T>) {
    && Apart(start, tag, close, end)
    && Free(close, start[0]) && Free(start, close[|close| - 1]) && Free(close, tag[0])
    && Free(end[1..], start[0]) && !Contains(start + (tag + close), end)
    && body != [] && Free(end, body[0]) && !Contains(body, end)
  }

  /** What follows a position where nothing was found any more. */
  lemma RestLacks<T>(text: seq<T>, n: seq<T>, from: nat)
    requires from <= |text| && FindFrom(text, n, from) == None
    ensures !Contains(text[from..], n) && text[..from] + text[from..] == text
  {
    FindMeans(text, n, from);
    var u, v := text[..from], text[from..];
    assert u + v == text;
    forall p: nat
      ensures !OccursAt(v, n, p)
    {
      OccursRight(u, v, n, p + from);
    }
  }

  lemma TailFree<T>(s: seq<T>, c: T)
    requires s != [] && Free(s, c)
    ensures Free(s[1..], c) && Free(s[..|s| - 1], c)
  {
  }

  /** The close that a stray start finds in the header of the block behind it. */
  lemma StrayClose<T>(u: seq<T>, v: seq<T>, start: seq<T>, tag: seq<T>, close: seq<T>, rest: seq<T>)
    requires start != [] && tag != [] && close != [] && !Contains(v, close)
    requires Free(close, start[0]) && Free(start, close[|close| - 1]) && Free(close, tag[0])
    requires Free(tag, close[0]) && Free(close, tag[|tag| - 1])
    ensures FindFrom(u + ((v + (start + tag)) + (close + rest)), close, |u|) == Some(|u| + |v + (start + tag)|)
  {
    FreeLacks(start, close, |close| - 1);
    FreeLacks(tag, close, 0);
    TailFree(close, tag[0]);
    TailFree(close, start[0]);
    TailFree(close, tag[|tag| - 1]);
    JoinLacks(start, tag, close);
    assert (start + tag)[0] == start[0];
    JoinLacks(v, start + tag, close);
    var mid := v + (start + tag);
    assert mid[|mid| - 1] == tag[|tag| - 1];
    FoundAt(u, mid, close, rest);
  }

  lemma StrayEnd<T>(u: seq<T>, v: seq<T>, head: seq<T>, body: seq<T>, end: seq<T>, tail: seq<T>)
    requires end != [] && Free(end[1..], end[0]) && head != [] && body != []
    requires !Contains(v, end) && !Contains(head, end) && !Contains(body, end)
    requires Free(end[1..], head[0]) && Free(end, body[0])
    ensures FindFrom(u + ((v + (head + body)) + (end + tail)), end, |u|) == Some(|u| + |v + (head + body)|)
  {
    TailFree(end, body[0]);
    JoinLacks(head, body, end);
    assert (head + body)[0] == head[0];
    JoinLacks(v, head + body, end);
    SentinelFound(u, v + (head + body), end, tail);
  }

  lemma Cuts<T>(u: seq<T>, v: seq<T>, x: seq<T>, y: seq<T>, z: seq<T>)
    ensures (u + v) + (x + (y + z)) == u + ((v + (x + y)) + z)
  {
    Assoc(x, y, z);
    Assoc(u, v, (x + y) + z);
    Assoc(v, x + y, z);
  }

  /** Why a text with a start sentinel holds no block. */
  lemma StrayStart<T>(pre: seq<T>, start: seq<T>, close: seq<T>, end: seq<T>) returns (p: nat)
    requires start != [] && Contains(pre, start) && Locate(pre, start, close, end) == None
    ensures FindFrom(pre, start, 0) == Some(p) && p + |start| <= |pre| && p < |pre|
    ensures
      var c := FindFrom(pre, close, p + |start|);
      c.Some? ==> FindFrom(pre, end, c.value + |close|) == None
  {
    FindMeans(pre, start, 0);
    p := FindFrom(pre, start, 0).value;
  }

  /** The searches that begin behind a stray start end with the block behind it. */
  lemma StraySearches<T>(
    pre: seq<T>, from: nat, start: seq<T>, tag: seq<T>, close: seq<T>, body: seq<T>, end: seq<T>, tail: seq<T>)
    returns (c: nat)
    requires SetApart(start, tag, close, body, end) && from <= |pre|
    requires
      var c := FindFrom(pre, close, from);
      c.Some? ==> FindFrom(pre, end, c.value + |close|) == None
    ensures
      var head := start + (tag + close);
      var text := pre + (head + (body + (end + tail)));
      && FindFrom(text, close, from) == Some(c)
      && FindFrom(text, end, c + |close|) == Some(|pre| + |head| + |body|)
  {
    var head := start + (tag + close);
    assert head[0] == start[0];
    if FindFrom(pre, close, from).Some? {
      c := FindFrom(pre, close, from).value;
      InsideClose(pre, c, from, head, close, body, end, tail);
    } else {
      c := |pre| + |start| + |tag|;
      BehindClose(pre, from, start, tag, close, body + (end + tail));
      EndSearch(pre + (head + (body + (end + tail))), pre, head, body, end, tail);
    }
  }

  /** Behind a stray start, a block is found that begins there and ends where the appended block ends. */
  lemma StrayLocated<T>(
    pre: seq<T>, start: seq<T>, tag: seq<T>, close: seq<T>, body: seq<T>, end: seq<T>, tail: seq<T>)
    returns (span: Span)
    requires SetApart(start, tag, close, body, end)
    requires Contains(pre, start) && Locate(pre, start, close, end) == None
    ensures
      var head := start + (tag + close);
      && Locate(pre + (head + (body + (end + tail))), start, close, end) == Some(span)
      && span.start < |pre| && span.to == |pre| + |head| + |body|
  {
    var p := StrayStart(pre, start, close, end);
    span := StraySpan(pre, p, start, tag, close, body, end, tail);
    StrayTie(pre, (start + (tag + close)) + (body + (end + tail)), start, close, end, span);
  }

  lemma StraySpan<T>(
    pre: seq<T>, p: nat, start: seq<T>, tag: seq<T>, close: seq<T>, body: seq<T>, end: seq<T>, tail: seq<T>)
    returns (span: Span)
    requires SetApart(start, tag, close, body, end) && p + |start| <= |pre|
    requires
      var c := FindFrom(pre, close, p + |start|);
      c.Some? ==> FindFrom(pre, end, c.value + |close|) == None
    ensures
      var head := start + (tag + close);
      && span.start == p && span.to == |pre| + |head| + |body|
      && Searched(pre + (head + (body + (end + tail))), start, close, end, span)
  {
    var c := StraySearches(pre, p + |start|, start, tag, close, body, end, tail);
    span := Span(p, c + |close|, |pre| + |start + (tag + close)| + |body|);
  }

  /** The searches behind the start of a block find its header's close and its end. */
  ghost predicate Searched<T>(text: seq<T>, start: seq<T>, close: seq<T>, end: seq<T>, span: Span) {
    && span.from >= |close| && FindFrom(text, close, span.start + |start|) == Some(span.from - |close|)
    && FindFrom(text, end, span.from) == Some(span.to)
  }

  lemma StrayTie<T>(pre: seq<T>, rest: seq<T>, start: seq<T>, close: seq<T>, end: seq<T>, span: Span)
    requires FindFrom(pre, start, 0) == Some(span.start) && Searched(pre + rest, start, close, end, span)
    ensures Locate(pre + rest, start, close, end) == Some(span)
  {
    FindKeeps(pre, rest, start, 0);
    LocateIs(pre + rest, start, close, end, span, span.from - |close|);
  }

  lemma InsideClose<T>(
    pre: seq<T>, c: nat, from: nat, head: seq<T>, close: seq<T>, body: seq<T>, end: seq<T>, tail: seq<T>)
    requires FindFrom(pre, close, from) == Some(c) && FindFrom(pre, end, c + |close|) == None
    requires end != [] && Free(end[1..], end[0]) && head != [] && body != []
    requires !Contains(head, end) && !Contains(body, end) && Free(end[1..], head[0]) && Free(end, body[0])
    ensures
      var text := pre + (head + (body + (end + tail)));
      && FindFrom(text, close, from) == Some(c)
      && FindFrom(text, end, c + |close|) == Some(|pre| + |head| + |body|)
  {
    FindKeeps(pre, head + (body + (end + tail)), close, from);
    var k := c + |close|;
    RestLacks(pre, end, k);
    StrayEnd(pre[..k], pre[k..], head, body, end, tail);
    Cuts(pre[..k], pre[k..], head, body, end + tail);
  }

  lemma BehindClose<T>(pre: seq<T>, from: nat, start: seq<T>, tag: seq<T>, close: seq<T>, rest: seq<T>)
    requires start != [] && tag != [] && close != [] && from <= |pre| && FindFrom(pre, close, from) == None
    requires Free(close, start[0]) && Free(start, close[|close| - 1]) && Free(close, tag[0])
    requires Free(tag, close[0]) && Free(close, tag[|tag| - 1])
    ensures FindFrom(pre + ((start + (tag + close)) + rest), close, from) == Some(|pre| + |start| + |tag|)
  {
    RestLacks(pre, close, from);
    StrayClose(pre[..from], pre[from..], start, tag, close, rest);
    Cuts(pre[..from], pre[from..], start, tag, close + rest);
    HeadCuts(start, tag, close, rest);
  }

  lemma NormalisedStarts(body: string)
    ensures Normalised(body) != "" && Normalised(body)[0] == '\n'
  {
    StartsAlike(body, "\n");
  }

  lemma HeaderLacksEnd(hash: string)
    requires Hex(hash)
    ensures !Contains(Header(hash), END)
  {
    SentinelFacts();
    LabelFacts(hash);
    HeaderParts(hash);
    FreeLacks(START, END, 13);
    FreeLacks(Label(hash), END, 0);
    LabelCloseLacks(Label(hash));
    assert (Label(hash) + CLOSE)[0] == 'v';
    JoinLacks(START, Label(hash) + CLOSE, END);
  }

  lemma LabelCloseLacks(tag: string)
    requires Free(tag, '<')
    ensures !Contains(tag + CLOSE, END)
  {
    CloseFacts();
    assert Free(tag + CLOSE, END[0]);
    FreeLacks(tag + CLOSE, END, 0);
  }

  lemma BlockSetApart(hash: string, body: string)
    requires Hex(hash) && !Contains(body, END)
    ensures SetApart(START, Label(hash), CLOSE, Normalised(body), END)
  {
    PiecesApart(hash);
    SentinelFacts();
    CloseFacts();
    LabelFacts(hash);
    NoV();
    NormalisedStarts(body);
    NormalisedLacks(body);
    HeaderParts(hash);
    HeaderLacksEnd(hash);
  }

  lemma NoV()
    ensures Free(CLOSE, 'v')
  {
  }

  lemma SeparatorLocates(text: string)
    ensures Locate(text + Separator(text), START, CLOSE, END) == Locate(text, START, CLOSE, END)
  {
    var sep := Separator(text);
    SentinelFacts();
    CloseFacts();
    if sep == "" {
      assert text + sep == text;
    } else {
      assert sep[0] == '\n' && Free(sep, '<') && Free(sep, '-');
      FreeLacks(sep, START, 0);
      FreeLacks(sep, CLOSE, 0);
      FreeLacks(sep, END, 0);
      TailFree(START, '\n');
      TailFree(CLOSE, '\n');
      TailFree(END, '\n');
      LocateAppend(text, sep, START, CLOSE, END);
    }
  }

  lemma ContainsGrows<T>(a: seq<T>, b: seq<T>, n: seq<T>)
    requires Contains(a, n)
    ensures Contains(a + b, n)
  {
    var p: nat :| OccursAt(a, n, p);
    OccursLeft(a, b, n, p);
    assert OccursAt(a + b, n, p);
  }

  /** Appended behind a stray start sentinel, a block is read back as one that begins at the stray start. */
  lemma StrayFound(digest: Digest, text: string, body: string) returns (f: Block)
    requires FindBlock(text) == None && Contains(text, START) && !Contains(body, END)
    ensures
      var pre := text + Separator(text);
      && FindBlock(pre + Rendered(digest, body) + "\n") == Some(f)
      && f.start < |pre| && f.end == |pre| + |Rendered(digest, body)|
  {
    var pre := text + Separator(text);
    var norm := Normalised(body);
    var hash := HexLower(digest(norm));
    HexIsHex(digest(norm));
    BlockSetApart(hash, body);
    SeparatorLocates(text);
    ContainsGrows(text, Separator(text), START);
    HeaderParts(hash);
    var span := StrayLocated(pre, START, Label(hash), CLOSE, norm, END, "\n");
    LaidRendered(digest, pre, body, "\n");
    RenderedLength(digest, body);
    f := FindBlock(Laid(pre, hash, norm, "\n")).value;
  }

  lemma Shorter<T>(text: seq<T>, block: seq<T>, start: nat, end: nat)
    requires start + |block| < end <= |text|
    ensures text[..start] + block + text[end..] != text
  {
    assert |text[..start] + block + text[end..]| == start + |block| + |text| - end;
  }

  /** Into a text without a block, injecting twice is injecting once if and only if it has no start sentinel:
      behind a stray one the second injection refuses or drops text that was there before. */
  lemma InjectTwiceStrayIff(digest: Digest, text: string, body: string, force: bool, again: bool)
    requires FindBlock(text) == None && !Contains(body, END)
    ensures
      var once := Injected(digest, text, body, force);
      once.Ok? && (Injected(digest, once.text, body, again) == once <==> !Contains(text, START))
  {
    InjectAppends(digest, text, body, force);
    if Contains(text, START) {
      var pre := text + Separator(text);
      var once := pre + Rendered(digest, body) + "\n";
      var f := StrayFound(digest, text, body);
      InjectedWhenFound(digest, once, body, again, f);
      Shorter(once, Rendered(digest, body), f.start, f.end);
    } else {
      InjectTwiceIff(digest, text, body, force, again);
    }
  }

  /** A text that is only a start sentinel: the second injection is not a repeat of the first. */
  lemma StrayExample(digest: Digest, body: string, force: bool, again: bool)
    requires !Contains(body, END)
    ensures
      var once := Injected(digest, START, body, force);
      once.Ok? && Injected(digest, once.text, body, again) != once
  {
    SentinelFacts();
    CloseFacts();
    FreeLacks(START, CLOSE, 2);
    forall from: nat
      ensures FindFrom(START, CLOSE, from) == None
    {
      FindMeans(START, CLOSE, from);
    }
    assert OccursAt(START, START, 0);
    InjectTwiceStrayIff(digest, START, body, force, again);
  }
}
