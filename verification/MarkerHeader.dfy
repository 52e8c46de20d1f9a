/** The start sentinel of a marker block: how it is written and how it is read. */
module MarkerHeader {
  import opened Sequences

  const START: string := "<!-- mneme-start "
  const VERSION: string := "1.0"
  const CLOSE: string := "-->"

  /** `<!-- mneme-start v1.0 sha256=<hash> -->`. */
  function Header(hash: string): string {
    START + ("v" + VERSION) + " " + ("sha256=" + hash) + " " + CLOSE
  }

  /** `char::is_whitespace`: the Unicode White_Space property. */
  predicate Space(c: char) {
    '\t' <= c <= '\r' || c == ' ' || c == '\U{85}' || c == '\U{A0}' || c == '\U{1680}'
    || '\U{2000}' <= c <= '\U{200A}' || c == '\U{2028}' || c == '\U{2029}' || c == '\U{202F}'
    || c == '\U{205F}' || c == '\U{3000}'
  }

  predicate StartsWith<T(==)>(s: seq<T>, pre: seq<T>) {
    |pre| <= |s| && s[..|pre|] == pre
  }

  predicate EndsWith<T(==)>(s: seq<T>, post: seq<T>) {
    |post| <= |s| && s[|s| - |post|..] == post
  }

  function TrimStartMatches<T(==)>(s: seq<T>, pat: seq<T>): seq<T>
    requires pat != []
    decreases |s|
  {
    if StartsWith(s, pat) then TrimStartMatches(s[|pat|..], pat) else s
  }

  function TrimEndMatches<T(==)>(s: seq<T>, pat: seq<T>): seq<T>
    requires pat != []
    decreases |s|
  {
    if EndsWith(s, pat) then TrimEndMatches(s[..|s| - |pat|], pat) else s
  }

  function TrimLeft(s: string): string {
    if s != "" && Space(s[0]) then TrimLeft(s[1..]) else s
  }

  function TrimRight(s: string): string {
    if s != "" && Space(s[|s| - 1]) then TrimRight(s[..|s| - 1]) else s
  }

  /** How many characters come before the first space. */
  function WordLength(s: string): (k: nat)
    ensures k <= |s|
    ensures forall i :: 0 <= i < k ==> !Space(s[i])
    ensures k < |s| ==> Space(s[k])
  {
    if s == "" || Space(s[0]) then 0 else 1 + WordLength(s[1..])
  }

  /** `split_whitespace`. */
  function Tokens(s: string): seq<string>
    decreases |s|
  {
    if s == "" then []
    else if Space(s[0]) then Tokens(s[1..])
    else [s[..WordLength(s)]] + Tokens(s[WordLength(s)..])
  }

  function StripPrefix(s: string, pre: string): Option<string> {
    if StartsWith(s, pre) then Some(s[|pre|..]) else None
  }

  /** The last token that carries a hash, if any. */
  function LastHash(tokens: seq<string>, sofar: Option<string>): Option<string>
    decreases |tokens|
  {
    if tokens == [] then sofar
    else
      var rest := StripPrefix(tokens[0], "sha256=");
      LastHash(tokens[1..], if rest.Some? then rest else sofar)
  }

  datatype Parsed = Parsed(version: string, hash: Option<string>)

  function FromTokens(tokens: seq<string>): Parsed {
    var version := if |tokens| > 1 then StripPrefix(tokens[1], "v") else None;
    Parsed(
      if version.Some? then version.value else VERSION,
      if |tokens| > 2 then LastHash(tokens[2..], None) else None)
  }

  /** The header without its comment marks and outer spaces. */
  function Inner(header: string): string {
    TrimRight(TrimLeft(TrimEndMatches(TrimStartMatches(header, "<!--"), CLOSE)))
  }

  function ParseStartHeader(header: string): Parsed {
    FromTokens(Tokens(Inner(header)))
  }

  predicate Word(s: string) {
    s != "" && forall i :: 0 <= i < |s| ==> !Space(s[i])
  }

  lemma WordEnds(w: string, rest: string)
    requires Word(w) && (rest == "" || Space(rest[0]))
    ensures WordLength(w + rest) == |w| && !Space((w + rest)[0])
  {
    var s, k := w + rest, WordLength(w + rest);
    assert forall i :: 0 <= i < |w| ==> s[i] == w[i];
    assert rest != "" ==> s[|w|] == rest[0];
  }

  lemma FirstToken(w: string, rest: string)
    requires Word(w) && (rest == "" || Space(rest[0]))
    ensures Tokens(w + rest) == [w] + Tokens(rest)
  {
    WordEnds(w, rest);
    assert (w + rest)[..|w|] == w && (w + rest)[|w|..] == rest;
  }

  lemma SpacedToken(w: string, rest: string)
    requires Word(w)
    ensures Tokens(w + " " + rest) == [w] + Tokens(rest)
  {
    assert w + " " + rest == w + (" " + rest);
    FirstToken(w, " " + rest);
    assert (" " + rest)[1..] == rest;
  }

  lemma LastToken(w: string)
    requires Word(w)
    ensures Tokens(w) == [w]
  {
    FirstToken(w, "");
    assert w + "" == w;
  }

  lemma ThreeTokens(a: string, b: string, c: string)
    requires Word(a) && Word(b) && Word(c)
    ensures Tokens(a + " " + (b + " " + c)) == [a, b, c]
  {
    SpacedToken(a, b + " " + c);
    SpacedToken(b, c);
    LastToken(c);
  }

  lemma StartsAlike<T>(s: seq<T>, pat: seq<T>)
    ensures StartsWith(s, pat) && pat != [] ==> s != [] && s[0] == pat[0]
  {
    if StartsWith(s, pat) && pat != [] {
      assert s[..|pat|][0] == pat[0];
    }
  }

  lemma EndsAlike<T>(s: seq<T>, pat: seq<T>)
    ensures EndsWith(s, pat) && pat != [] ==> s != [] && s[|s| - 1] == pat[|pat| - 1]
  {
    if EndsWith(s, pat) && pat != [] {
      assert s[|s| - |pat|..][|pat| - 1] == pat[|pat| - 1];
    }
  }

  lemma TrimStartOnce<T>(pat: seq<T>, s: seq<T>)
    requires pat != [] && (s == [] || s[0] != pat[0])
    ensures TrimStartMatches(pat + s, pat) == s
  {
    assert (pat + s)[|pat|..] == s && (pat + s)[..|pat|] == pat;
    StartsAlike(s, pat);
  }

  lemma TrimEndOnce<T>(pat: seq<T>, s: seq<T>)
    requires pat != [] && (s == [] || s[|s| - 1] != pat[|pat| - 1])
    ensures TrimEndMatches(s + pat, pat) == s
  {
    assert (s + pat)[|s|..] == pat && (s + pat)[..|s|] == s;
    EndsAlike(s, pat);
  }

  lemma TrimBoth(s: string)
    requires s != "" && !Space(s[0]) && !Space(s[|s| - 1])
    ensures TrimRight(TrimLeft(" " + s + " ")) == s
  {
    assert (" " + s + " ")[1..] == s + " ";
    assert (s + " ")[..|s|] == s;
  }

  function Content(hash: string): string {
    "mneme-start" + " " + ("v" + VERSION + " " + ("sha256=" + hash))
  }

  lemma HeaderSplits(hash: string)
    ensures Header(hash) == "<!--" + (" " + Content(hash) + " " + CLOSE)
  {
    assert START == "<!--" + (" " + ("mneme-start" + " "));
  }

  /** A hash is written in characters that neither end a token nor a comment. */
  predicate Plain(hash: string) {
    forall i :: 0 <= i < |hash| ==> !Space(hash[i]) && hash[i] != '-' && hash[i] != '<'
  }

  lemma LiteralWords()
    ensures Word("mneme-start") && Word("v" + VERSION) && Word("sha256=")
  {
  }

  lemma HashWord(hash: string)
    requires Plain(hash)
    ensures Word("sha256=" + hash)
  {
    LiteralWords();
    var s := "sha256=" + hash;
    forall i | 0 <= i < |s|
      ensures !Space(s[i])
    {
      assert s[i] == if i < 7 then "sha256="[i] else hash[i - 7];
    }
  }

  lemma ContentEnds(hash: string)
    requires Plain(hash)
    ensures !Space(Content(hash)[0]) && !Space(Content(hash)[|Content(hash)| - 1])
  {
    HashWord(hash);
    var last := "sha256=" + hash;
    assert Content(hash)[|Content(hash)| - 1] == last[|last| - 1];
  }

  lemma InnerIsContent(hash: string)
    requires Plain(hash)
    ensures Inner(Header(hash)) == Content(hash)
  {
    HeaderSplits(hash);
    var spaced := " " + Content(hash) + " ";
    TrimStartOnce("<!--", spaced + CLOSE);
    TrimEndOnce(CLOSE, spaced);
    ContentEnds(hash);
    TrimBoth(Content(hash));
  }

  lemma ContentTokens(hash: string)
    requires Plain(hash)
    ensures Tokens(Content(hash)) == ["mneme-start", "v" + VERSION, "sha256=" + hash]
  {
    LiteralWords();
    HashWord(hash);
    ThreeTokens("mneme-start", "v" + VERSION, "sha256=" + hash);
  }

  lemma Stripped(pre: string, s: string)
    ensures StripPrefix(pre + s, pre) == Some(s)
  {
    assert (pre + s)[..|pre|] == pre && (pre + s)[|pre|..] == s;
  }

  lemma OneHash(hash: string)
    ensures LastHash(["sha256=" + hash], None) == Some(hash)
  {
    Stripped("sha256=", hash);
    assert ["sha256=" + hash][1..] == [];
    assert LastHash([], Some(hash)) == Some(hash);
  }

  /** Reading a written header gives the version and the hash back. */
  lemma HeaderRoundTrip(hash: string)
    requires Plain(hash)
    ensures ParseStartHeader(Header(hash)) == Parsed(VERSION, Some(hash))
  {
    InnerIsContent(hash);
    ContentTokens(hash);
    var tokens := ["mneme-start", "v" + VERSION, "sha256=" + hash];
    Stripped("v", VERSION);
    OneHash(hash);
    assert tokens[2..] == ["sha256=" + hash];
  }
}
