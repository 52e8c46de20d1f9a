/** Idempotent injection of a marked block into a text, as in cli/src/markers.rs. */
module Markers {
  import opened Numbers
  import opened Sequences
  import opened Substrings
  import opened MarkerHeader

  const END: string := "<!-- mneme-end -->"
  const HEX: string := "0123456789abcdef"

  function HexPair(b: Byte): (s: string)
    ensures |s| == 2
  {
    [HEX[b / 16], HEX[b % 16]]
  }

  function HexLower(bytes: seq<Byte>): string {
    if bytes == [] then "" else HexPair(bytes[0]) + HexLower(bytes[1..])
  }

  /** The hash of a text before it is written in hexadecimal (SHA-256 in the source). */
  type Digest = string -> seq<Byte>

  datatype Block = Block(start: nat, end: nat, body: string, version: string, recorded: Option<string>)

  datatype Result = Ok(text: string) | Edited

  /** Where a block starts, where its header ends and where its body ends. */
  datatype Span = Span(start: nat, from: nat, to: nat)

  /** The first start sentinel, the first close behind it, and the first end sentinel behind that. */
  function Locate<T(==)>(text: seq<T>, start: seq<T>, close: seq<T>, end: seq<T>): (r: Option<Span>)
    ensures r.Some? ==> r.value.start <= r.value.from <= r.value.to && r.value.to + |end| <= |text|
  {
    var s := FindFrom(text, start, 0);
    if s.None? then None
    else
      var c := FindFrom(text, close, s.value + |start|);
      if c.None? then None
      else
        var e := FindFrom(text, end, c.value + |close|);
        if e.None? then None else Some(Span(s.value, c.value + |close|, e.value))
  }

  function BlockOf(span: Span, header: Parsed, body: string): Block {
    Block(span.start, span.to + |END|, body, header.version, header.hash)
  }

  /** The first block of a text. */
  function FindBlock(text: string): (r: Option<Block>)
    ensures r.Some? ==> r.value.start <= r.value.end <= |text|
  {
    var span := Locate(text, START, CLOSE, END);
    if span.None? then None
    else
      Some(BlockOf(
        span.value,
        ParseStartHeader(text[span.value.start..span.value.from]),
        text[span.value.from..span.value.to]))
  }

  predicate Unedited(digest: Digest, block: Block) {
    block.recorded.None? || HexLower(digest(block.body)) == block.recorded.value
  }

  /** The body on lines of its own. */
  function Normalised(body: string): string {
    Ended(Started(body))
  }

  /** Starts a text with a newline if it does not. */
  function Started(text: string): string {
    (if StartsWith(text, "\n") then "" else "\n") + text
  }

  /** Ends a text with a newline if it does not. */
  function Ended(text: string): string {
    if EndsWith(text, "\n") then text else text + "\n"
  }

  function Rendered(digest: Digest, body: string): string {
    Header(HexLower(digest(Normalised(body)))) + Normalised(body) + END
  }

  /** What goes between a text and a block appended to it. */
  function Separator(text: string): string {
    if EndsWith(text, "\n\n") then "" else if EndsWith(text, "\n") then "\n" else if text != "" then "\n\n" else ""
  }

  function Replaced(digest: Digest, text: string, f: Block, body: string, force: bool): Result
    requires f.start <= f.end <= |text|
  {
    if !Unedited(digest, f) && !force then Edited
    else Ok(text[..f.start] + Rendered(digest, body) + text[f.end..])
  }

  function Appended(digest: Digest, text: string, body: string): string {
    Ended(text + Separator(text) + Rendered(digest, body))
  }

  function Injected(digest: Digest, text: string, body: string, force: bool): Result {
    var found := FindBlock(text);
    if found.Some? then Replaced(digest, text, found.value, body, force)
    else Ok(Appended(digest, text, body))
  }

  function Cut(text: string, f: Block): string
    requires f.start <= f.end <= |text|
  {
    var after := text[f.end..];
    text[..f.start] + (if StartsWith(after, "\n") then after[1..] else after)
  }

  function Removed(text: string): string {
    var found := FindBlock(text);
    if found.None? then text else Cut(text, found.value)
  }

  // ---- The buffers the source builds ----

  lemma {:induction false} HexAppends(a: seq<Byte>, b: Byte)
    ensures HexLower(a + [b]) == HexLower(a) + HexPair(b)
  {
    if a == [] {
      assert a + [b] == [b] && [b][1..] == [];
      Empties(HexPair(b));
    } else {
      assert (a + [b])[1..] == a[1..] + [b];
      HexAppends(a[1..], b);
      Assoc(HexPair(a[0]), HexLower(a[1..]), HexPair(b));
    }
  }

  method WriteHex(bytes: seq<Byte>) returns (out: string)
    ensures out == HexLower(bytes)
  {
    out := "";
    for i := 0 to |bytes|
      invariant out == HexLower(bytes[..i])
    {
      HexAppends(bytes[..i], bytes[i]);
      assert bytes[..i + 1] == bytes[..i] + [bytes[i]];
      out := out + [HEX[bytes[i] / 16]];
      out := out + [HEX[bytes[i] % 16]];
    }
    assert bytes[..|bytes|] == bytes;
  }

  method EnsureSurroundingNewlines(body: string) returns (s: string)
    ensures s == Normalised(body)
  {
    s := "";
    if !StartsWith(body, "\n") {
      s := s + "\n";
    }
    assert s == if StartsWith(body, "\n") then "" else "\n";
    s := s + body;
    if !EndsWith(s, "\n") {
      s := s + "\n";
    }
  }

  method RenderBlock(digest: Digest, body: string) returns (s: string)
    ensures s == Rendered(digest, body)
  {
    var normalised := EnsureSurroundingNewlines(body);
    var hash := WriteHex(digest(normalised));
    s := Header(hash) + normalised + END;
  }

  method Inject(digest: Digest, text: string, body: string, force: bool) returns (r: Result)
    ensures r == Injected(digest, text, body, force)
  {
    var block := RenderBlock(digest, body);
    var found := FindBlock(text);
    if found.Some? {
      var hash := WriteHex(digest(found.value.body));
      var unedited := found.value.recorded.None? || hash == found.value.recorded.value;
      if !unedited && !force {
        return Edited;
      }
      var out := text[..found.value.start];
      out := out + block;
      out := out + text[found.value.end..];
      return Ok(out);
    }
    var out := text;
    if !EndsWith(text, "\n\n") {
      if EndsWith(text, "\n") {
        out := out + "\n";
      } else if text != "" {
        out := out + "\n\n";
      }
    }
    assert out == text + Separator(text);
    out := out + block;
    if !EndsWith(out, "\n") {
      out := out + "\n";
    }
    r := Ok(out);
  }

  method Remove(text: string) returns (out: string)
    ensures out == Removed(text)
  {
    var found := FindBlock(text);
    if found.None? {
      return text;
    }
    out := text[..found.value.start];
    var after := text[found.value.end..];
    out := out + if StartsWith(after, "\n") then after[1..] else after;
  }

  // ---- Newlines ----

  predicate StartsOnce(s: string) {
    StartsWith(s, "\n") && !StartsWith(s, "\n\n")
  }

  predicate EndsOnce(s: string) {
    EndsWith(s, "\n") && !EndsWith(s, "\n\n")
  }

  lemma StartPoints(s: string)
    ensures StartsWith(s, "\n") <==> |s| >= 1 && s[0] == '\n'
    ensures StartsWith(s, "\n\n") <==> |s| >= 2 && s[0] == '\n' && s[1] == '\n'
  {
    if |s| >= 1 {
      assert s[..1] == [s[0]];
    }
    if |s| >= 2 {
      assert s[..2] == [s[0], s[1]];
    }
  }

  lemma EndPoints(s: string)
    ensures EndsWith(s, "\n") <==> |s| >= 1 && s[|s| - 1] == '\n'
    ensures EndsWith(s, "\n\n") <==> |s| >= 2 && s[|s| - 1] == '\n' && s[|s| - 2] == '\n'
  {
    if |s| >= 1 {
      assert s[|s| - 1..] == [s[|s| - 1]];
    }
    if |s| >= 2 {
      assert s[|s| - 2..] == [s[|s| - 2], s[|s| - 1]];
    }
  }

  lemma StartedStarts(text: string)
    ensures StartsWith(Started(text), "\n")
    ensures StartsWith(Started(text), "\n\n") <==> StartsWith(text, "\n\n")
    ensures EndsWith(Started(text), "\n\n") <==> EndsWith(text, "\n\n")
  {
    StartPoints(text);
    EndPoints(text);
    StartPoints(Started(text));
    EndPoints(Started(text));
  }

  lemma EndedEnds(text: string)
    ensures EndsWith(Ended(text), "\n") && (EndsWith(Ended(text), "\n\n") <==> EndsWith(text, "\n\n"))
  {
    EndPoints(text);
    EndPoints(Ended(text));
  }

  lemma EndedStarts(text: string)
    requires StartsWith(text, "\n")
    ensures StartsWith(Ended(text), "\n") && (StartsWith(Ended(text), "\n\n") <==> StartsWith(text, "\n\n"))
  {
    StartPoints(text);
    EndPoints(text);
    StartPoints(Ended(text));
  }

  /** A normalised body starts with exactly one newline if and only if the body does not start with two. */
  lemma OneNewlineBeforeIff(body: string)
    ensures StartsOnce(Normalised(body)) <==> !StartsWith(body, "\n\n")
  {
    StartedStarts(body);
    EndedStarts(Started(body));
  }

  /** And it ends with exactly one if and only if the body does not end with two. */
  lemma OneNewlineAfterIff(body: string)
    ensures EndsOnce(Normalised(body)) <==> !EndsWith(body, "\n\n")
  {
    StartedStarts(body);
    EndedEnds(Started(body));
  }

  /** A body of two newlines keeps both, on either side. */
  lemma TwoNewlinesStay()
    ensures !StartsOnce(Normalised("\n\n")) && !EndsOnce(Normalised("\n\n"))
  {
    OneNewlineBeforeIff("\n\n");
    OneNewlineAfterIff("\n\n");
  }

  // ---- Hexadecimal ----

  lemma HexDigits(i: nat, j: nat)
    requires i < 16 && j < 16
    ensures HEX[i] == HEX[j] ==> i == j
    ensures !Space(HEX[i]) && HEX[i] != '-' && HEX[i] != '<' && HEX[i] != '>'
  {
  }

  predicate Hex(s: string) {
    forall i :: 0 <= i < |s| ==> !Space(s[i]) && s[i] != '-' && s[i] != '<' && s[i] != '>'
  }

  lemma {:induction false} HexIsHex(bytes: seq<Byte>)
    ensures Hex(HexLower(bytes)) && |HexLower(bytes)| == 2 * |bytes|
  {
    if bytes != [] {
      HexIsHex(bytes[1..]);
      HexDigits(bytes[0] / 16, bytes[0] % 16);
      HexDigits(bytes[0] % 16, bytes[0] / 16);
    }
  }

  /** Different digests are written differently. */
  lemma {:induction false} HexInjective(a: seq<Byte>, b: seq<Byte>)
    ensures HexLower(a) == HexLower(b) <==> a == b
  {
    HexIsHex(a);
    HexIsHex(b);
    if HexLower(a) == HexLower(b) && a != [] {
      var s := HexLower(a);
      assert s[0] == HEX[a[0] / 16] == HEX[b[0] / 16] && s[1] == HEX[a[0] % 16] == HEX[b[0] % 16];
      HexDigits(a[0] / 16, b[0] / 16);
      HexDigits(a[0] % 16, b[0] % 16);
      assert s[2..] == HexLower(a[1..]) == HexLower(b[1..]);
      HexInjective(a[1..], b[1..]);
      assert [a[0]] + a[1..] == a && [b[0]] + b[1..] == b;
    }
  }
}
