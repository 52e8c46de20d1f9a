/** Injecting again, refusing hand-edited blocks, and taking blocks out. */
module MarkerCycles {
  import opened Sequences
  import opened Substrings
  import opened MarkerHeader
  import opened Markers
  import opened MarkerLaws

  lemma NoStartNoBlock(text: string)
    requires !Contains(text, START)
    ensures FindBlock(text) == None
  {
    FindMeans(text, START, 0);
  }

  lemma RenderedEnds(digest: Digest, pre: string, body: string)
    ensures !EndsWith(pre + Rendered(digest, body), "\n")
  {
    var out := pre + Rendered(digest, body);
    assert END[17] == '>';
    assert out[|out| - 1] == '>';
    EndsAlike(out, "\n");
  }

  lemma EndsInNewline(digest: Digest, pre: string, body: string)
    ensures Ended(pre + Rendered(digest, body)) == pre + Rendered(digest, body) + "\n"
  {
    RenderedEnds(digest, pre, body);
  }

  /** Without a block, injection appends one behind a blank line and ends the text with a newline. */
  lemma InjectAppends(digest: Digest, text: string, body: string, force: bool)
    requires FindBlock(text) == None
    ensures Injected(digest, text, body, force) == Ok(text + Separator(text) + Rendered(digest, body) + "\n")
  {
    EndsInNewline(digest, text + Separator(text), body);
  }

  lemma BeforeBlockLacks(text: string, f: Block)
    requires FindBlock(text) == Some(f)
    ensures !Contains(text[..f.start], START)
  {
    FindMeans(text, START, 0);
    var pre, rest := text[..f.start], text[f.start..];
    assert pre + rest == text;
    forall p: nat
      ensures !OccursAt(pre, START, p)
    {
      if p + |START| <= |pre| {
        OccursLeft(pre, rest, START, p);
      }
    }
  }

  /** A text whose start sentinels, if any, belong to a block. */
  ghost predicate Sound(text: string) {
    FindBlock(text).Some? || !Contains(text, START)
  }

  /** What an accepted injection into a sound text looks like. */
  lemma InjectedShape(digest: Digest, text: string, body: string, force: bool)
    returns (pre: string, tail: string)
    requires Sound(text) && Injected(digest, text, body, force).Ok?
    ensures !Contains(pre, START)
    ensures forall b, g | Injected(digest, text, b, g).Ok? ::
              Injected(digest, text, b, g) == Ok(pre + Rendered(digest, b) + tail)
  {
    if FindBlock(text).Some? {
      var f := FindBlock(text).value;
      BeforeBlockLacks(text, f);
      pre, tail := text[..f.start], text[f.end..];
      forall b, g | Injected(digest, text, b, g).Ok?
        ensures Injected(digest, text, b, g) == Ok(pre + Rendered(digest, b) + tail)
      {
        InjectedWhenFound(digest, text, b, g, f);
      }
    } else {
      SeparatorLacks(text);
      pre, tail := text + Separator(text), "\n";
      forall b, g
        ensures Injected(digest, text, b, g) == Ok(pre + Rendered(digest, b) + tail)
      {
        InjectAppends(digest, text, b, g);
      }
    }
  }

  /** The last injection decides: what was injected before it leaves no trace. */
  lemma LastInjectionWins(digest: Digest, text: string, first: string, second: string, force: bool, again: bool)
    requires Sound(text) && !Contains(first, END)
    requires Injected(digest, text, first, force).Ok? && Injected(digest, text, second, force).Ok?
    ensures Injected(digest, Injected(digest, text, first, force).text, second, again)
         == Injected(digest, text, second, force)
  {
    var pre, tail := InjectedShape(digest, text, first, force);
    InjectReplaces(digest, pre, first, second, tail, again);
  }

  // ---- Injecting twice ----

  lemma SplitAt<T>(s: seq<T>, p: nat, n: seq<T>)
    requires OccursAt(s, n, p)
    ensures s == s[..p] + (n + s[p + |n|..])
  {
    assert s[..p] + (s[p..p + |n|] + s[p + |n|..]) == s;
  }

  /** The first end sentinel of a text, with what comes before and after it. */
  lemma FirstEnd(s: string) returns (x: string, y: string)
    requires Contains(s, END)
    ensures s == x + (END + y) && !Contains(x, END)
  {
    FindMeans(s, END, 0);
    var p := FindFrom(s, END, 0).value;
    x, y := s[..p], s[p + |END|..];
    SplitAt(s, p, END);
    forall q: nat
      ensures !OccursAt(x, END, q)
    {
      if q + |END| <= |x| {
        OccursLeft(x, END + y, END, q);
      }
    }
  }

  lemma NormalisedContains(body: string)
    requires Contains(body, END)
    ensures Contains(Normalised(body), END)
  {
    if !Contains(Normalised(body), END) {
      var s := (if StartsWith(body, "\n") then "" else "\n") + body;
      assert Normalised(body) == s || Normalised(body) == s + "\n";
      if Normalised(body) != s {
        PartLacks(s, "\n", END);
      }
      PartLacks(if StartsWith(body, "\n") then "" else "\n", body, END);
    }
  }

  lemma LaidInner(pre: string, hash: string, x: string, y: string, tail: string)
    ensures Laid(pre, hash, x + (END + y), tail) == Laid(pre, hash, x, y + (END + tail))
  {
    InnerParts(x, END, y, tail);
  }

  lemma InnerParts<T>(x: seq<T>, end: seq<T>, y: seq<T>, tail: seq<T>)
    ensures (x + (end + y)) + (end + tail) == x + (end + (y + (end + tail)))
  {
    Assoc(x, end + y, end + tail);
    Assoc(end, y, end + tail);
  }

  /** A body with an end sentinel in it is cut off there when the block is read back. */
  lemma CutBody(digest: Digest, pre: string, body: string, tail: string) returns (f: Block)
    requires !Contains(pre, START) && Contains(body, END)
    ensures FindBlock(pre + Rendered(digest, body) + tail) == Some(f)
    ensures f.start == |pre| && f.end < |pre| + |Rendered(digest, body)|
  {
    var norm := Normalised(body);
    var hash := HexLower(digest(norm));
    NormalisedContains(body);
    var x, y := FirstEnd(norm);
    HexIsHex(digest(norm));
    LaidRendered(digest, pre, body, tail);
    LaidInner(pre, hash, x, y, tail);
    LaidIsFound(pre, hash, x, y + (END + tail));
    RenderedLength(digest, body);
    f := BlockAt(|pre|, hash, x);
  }

  lemma Longer<T>(pre: seq<T>, block: seq<T>, tail: seq<T>, end: nat)
    requires |pre| <= end <= |pre + block + tail|
    ensures (pre + block + tail)[..|pre|] == pre
    ensures end != |pre| + |block| ==> pre + block + (pre + block + tail)[end..] != pre + block + tail
  {
    var text := pre + block + tail;
    assert |pre + block + text[end..]| == |pre| + |block| + |text| - end;
  }

  lemma CutBodyDiffers(digest: Digest, pre: string, body: string, tail: string, again: bool)
    requires !Contains(pre, START) && Contains(body, END)
    ensures
      var text := pre + Rendered(digest, body) + tail;
      Injected(digest, text, body, again) != Ok(text)
  {
    var text := pre + Rendered(digest, body) + tail;
    var f := CutBody(digest, pre, body, tail);
    Longer(pre, Rendered(digest, body), tail, f.end);
    InjectedWhenFound(digest, text, body, again, f);
  }

  /** Into a sound text, injecting twice is injecting once, if and only if the body holds no end sentinel. */
  lemma InjectTwiceIff(digest: Digest, text: string, body: string, force: bool, again: bool)
    requires Sound(text) && Injected(digest, text, body, force).Ok?
    ensures
      var once := Injected(digest, text, body, force);
      Injected(digest, once.text, body, again) == once <==> !Contains(body, END)
  {
    var pre, tail := InjectedShape(digest, text, body, force);
    if Contains(body, END) {
      CutBodyDiffers(digest, pre, body, tail, again);
    } else {
      InjectReplaces(digest, pre, body, body, tail, again);
    }
  }

  // ---- Hand-edited blocks ----

  /** A block whose body was changed by hand is refused without force exactly when its hash changed too; with
      force it is replaced, and the text around it stays. */
  lemma EditedRefusedIff(
    digest: Digest, pre: string, was: string, edited: string, body: string, tail: string, force: bool)
    requires !Contains(pre, START) && !Contains(edited, END)
    ensures
      var r := Injected(digest, Laid(pre, HexLower(digest(Normalised(was))), edited, tail), body, force);
      && (r == Edited <==> !force && digest(edited) != digest(Normalised(was)))
      && (r != Edited ==> r == Ok(pre + Rendered(digest, body) + tail))
  {
    var hash := HexLower(digest(Normalised(was)));
    var text := Laid(pre, hash, edited, tail);
    HexIsHex(digest(Normalised(was)));
    LaidIsFound(pre, hash, edited, tail);
    InjectedWhenFound(digest, text, body, force, BlockAt(|pre|, hash, edited));
    HexInjective(digest(edited), digest(Normalised(was)));
    FourParts(pre, Header(hash), edited, END, tail);
    Slices3(pre, Header(hash) + edited + END, tail);
  }

  // ---- Removal ----

  lemma RemovedWhenFound(text: string, f: Block)
    requires FindBlock(text) == Some(f)
    ensures Removed(text) == Cut(text, f)
  {
  }

  /** Removal takes out the block and one newline behind it, nothing else. */
  lemma RemoveTakesBlock(digest: Digest, pre: string, body: string, tail: string)
    requires !Contains(pre, START) && !Contains(body, END)
    ensures Removed(pre + Rendered(digest, body) + ("\n" + tail)) == pre + tail
  {
    var text := pre + Rendered(digest, body) + ("\n" + tail);
    FindRecovers(digest, pre, body, "\n" + tail);
    RenderedLength(digest, body);
    Slices3(pre, Rendered(digest, body), "\n" + tail);
    assert ("\n" + tail)[1..] == tail;
    RemovedWhenFound(text, BlockAt(|pre|, HexLower(digest(Normalised(body))), Normalised(body)));
  }

  /** Injecting into a clean text and removing again leaves the text and the separator. */
  lemma RemoveAfterInject(digest: Digest, text: string, body: string, force: bool)
    requires !Contains(text, START) && !Contains(body, END)
    ensures Injected(digest, text, body, force).Ok?
    ensures Removed(Injected(digest, text, body, force).text) == text + Separator(text)
  {
    NoStartNoBlock(text);
    InjectAppends(digest, text, body, force);
    SeparatorLacks(text);
    assert "\n" + "" == "\n" && text + Separator(text) + "" == text + Separator(text);
    RemoveTakesBlock(digest, text + Separator(text), body, "");
  }

  lemma SeparatorEmptyIff(text: string)
    ensures text + Separator(text) == text <==> text == "" || EndsWith(text, "\n\n")
  {
    assert |text + Separator(text)| == |text| + |Separator(text)|;
  }

  /** A text that got its separator needs no other. */
  lemma SeparatorOnce(text: string)
    ensures Separator(text + Separator(text)) == ""
  {
    var s := text + Separator(text);
    if EndsWith(text, "\n\n") {
    } else if EndsWith(text, "\n") {
      EndsAlike(text, "\n");
      assert s[|s| - 2..] == "\n\n";
    } else if text != "" {
      assert s[|s| - 2..] == "\n\n";
    }
  }

  /** Removal undoes injection exactly for a text that is empty or ends in a blank line. */
  lemma RemoveUndoesIff(digest: Digest, text: string, body: string, force: bool)
    requires !Contains(text, START) && !Contains(body, END)
    ensures Injected(digest, text, body, force).Ok?
    ensures Removed(Injected(digest, text, body, force).text) == text <==> text == "" || EndsWith(text, "\n\n")
  {
    RemoveAfterInject(digest, text, body, force);
    SeparatorEmptyIff(text);
  }

  /** Only the first round of injecting and removing adds anything; every later one is the identity. */
  lemma SecondCycleIsIdentity(digest: Digest, text: string, first: string, second: string, force: bool)
    requires !Contains(text, START) && !Contains(first, END) && !Contains(second, END)
    ensures
      var settled := Removed(Appended(digest, text, first));
      && Injected(digest, text, first, force) == Ok(Appended(digest, text, first))
      && Injected(digest, settled, second, force).Ok?
      && Removed(Injected(digest, settled, second, force).text) == settled
  {
    NoStartNoBlock(text);
    RemoveAfterInject(digest, text, first, force);
    SeparatorOnce(text);
    SeparatorLacks(text);
    RemoveAfterInject(digest, text + Separator(text), second, force);
    assert text + Separator(text) + "" == text + Separator(text);
  }
}
