/** Topics and topic patterns of livebus/src/bus.rs. */
module Topics {

  /** `s.split('.')`: always at least one segment. */
  function Segments(s: string): (r: seq<string>)
    ensures |r| >= 1
  {
    if s == "" then [""]
    else
      var rest := Segments(s[1..]);
      if s[0] == '.' then [""] + rest else [[s[0]] + rest[0]] + rest[1..]
  }

  /** The segments with dots between them. */
  function Joined(segs: seq<string>): string
    requires |segs| >= 1
  {
    if |segs| == 1 then segs[0] else segs[0] + "." + Joined(segs[1..])
  }

  /** Splitting loses nothing, and no segment contains a dot. */
  lemma {:induction false} SegmentsRoundTrip(s: string)
    ensures Joined(Segments(s)) == s && forall g :: g in Segments(s) ==> '.' !in g
  {
    if s != "" {
      SegmentsRoundTrip(s[1..]);
      var rest := Segments(s[1..]);
      assert forall g :: g in rest[1..] ==> g in rest;
      assert rest[0] in rest;
      if s[0] == '.' {
        assert ([""] + rest)[1..] == rest;
        assert "" + "." + Joined(rest) == s;
      } else {
        var segs := [[s[0]] + rest[0]] + rest[1..];
        assert segs[1..] == rest[1..];
        if |rest| == 1 {
          assert [s[0]] + rest[0] == s;
        } else {
          assert [s[0]] + rest[0] + "." + Joined(rest[1..]) == [s[0]] + (rest[0] + "." + Joined(rest[1..]));
        }
      }
    }
  }

  /** What a pattern means: `*` stands for one segment, a trailing `#` for one or more, anything else for
      itself. */
  ghost predicate SegmentsMatch(p: seq<string>, t: seq<string>)
    decreases |p|
  {
    if p == [] then t == []
    else if p == ["#"] then t != []
    else t != [] && (p[0] == "*" || p[0] == t[0]) && SegmentsMatch(p[1..], t[1..])
  }

  /** A pattern matches a topic when its segments do, except that a bare `#` refuses the empty topic. */
  ghost predicate Matches(pattern: string, topic: string) {
    SegmentsMatch(Segments(pattern), Segments(topic)) && !(Segments(pattern) == ["#"] && topic == "")
  }

  /** The first `n` segments agree, `*` agreeing with anything. */
  ghost predicate Agree(p: seq<string>, t: seq<string>, n: nat) {
    n <= |p| && n <= |t| && forall i :: 0 <= i < n ==> p[i] == "*" || p[i] == t[i]
  }

  lemma {:induction false} LiteralMatch(p: seq<string>, t: seq<string>)
    requires p == [] || p[|p| - 1] != "#"
    ensures SegmentsMatch(p, t) <==> |p| == |t| && Agree(p, t, |p|)
    decreases |p|
  {
    if p != [] && t != [] {
      LiteralMatch(p[1..], t[1..]);
      if |p| == |t| && (p[0] == "*" || p[0] == t[0]) && Agree(p[1..], t[1..], |p| - 1) {
        forall i | 0 <= i < |p|
          ensures p[i] == "*" || p[i] == t[i]
        {
          assert i > 0 ==> p[i] == p[1..][i - 1] && t[i] == t[1..][i - 1];
        }
      }
    }
  }

  lemma {:induction false} TailMatch(p: seq<string>, t: seq<string>)
    requires p != [] && p[|p| - 1] == "#"
    ensures SegmentsMatch(p, t) <==> |t| >= |p| && Agree(p, t, |p| - 1)
    decreases |p|
  {
    if |p| == 1 {
      assert p == ["#"];
    } else if t != [] {
      TailMatch(p[1..], t[1..]);
      if |t| >= |p| && (p[0] == "*" || p[0] == t[0]) && Agree(p[1..], t[1..], |p| - 2) {
        forall i | 0 <= i < |p| - 1
          ensures p[i] == "*" || p[i] == t[i]
        {
          assert i > 0 ==> p[i] == p[1..][i - 1] && t[i] == t[1..][i - 1];
        }
      }
    }
  }

  /** Compares the leading segments. */
  method PrefixAgrees(p: seq<string>, t: seq<string>, n: nat) returns (ok: bool)
    requires n <= |p| && n <= |t|
    ensures ok == Agree(p, t, n)
  {
    for i := 0 to n
      invariant Agree(p, t, i)
    {
      if p[i] != "*" && p[i] != t[i] {
        return false;
      }
    }
    return true;
  }

  /** `topic_matches`. */
  method TopicMatches(pattern: string, topic: string) returns (ok: bool)
    ensures ok == Matches(pattern, topic)
  {
    var p, t := Segments(pattern), Segments(topic);
    if p[|p| - 1] == "#" {
      TailMatch(p, t);
      if |p| >= 2 {
        if |t| < |p| - 1 + 1 {
          return false;
        }
        ok := PrefixAgrees(p, t, |p| - 1);
        return ok;
      }
      return topic != "";
    }
    LiteralMatch(p, t);
    if |p| != |t| {
      return false;
    }
    ok := PrefixAgrees(p, t, |p|);
  }

  ghost predicate MatchesAny(patterns: seq<string>, topic: string) {
    exists i :: 0 <= i < |patterns| && Matches(patterns[i], topic)
  }

  /** `topic_matches_any`. */
  method TopicMatchesAny(patterns: seq<string>, topic: string) returns (ok: bool)
    ensures ok == MatchesAny(patterns, topic)
  {
    for i := 0 to |patterns|
      invariant forall j :: 0 <= j < i ==> !Matches(patterns[j], topic)
    {
      ok := TopicMatches(patterns[i], topic);
      if ok {
        return true;
      }
    }
    return false;
  }

  // ----- validation -----

  predicate IsControl(c: char) {
    c as int < 0x20 || 0x7f <= c as int <= 0x9f
  }

  predicate BadChar(c: char) {
    IsControl(c) || c == ' ' || c == '\n'
  }

  /** A topic or pattern the bus accepts: non-empty segments free of control characters and spaces. */
  ghost predicate ValidTopic(topic: string) {
    topic != "" && forall g :: g in Segments(topic) ==> g != "" && forall i :: 0 <= i < |g| ==> !BadChar(g[i])
  }

  /** `validate_topic`. */
  method ValidateTopic(topic: string) returns (ok: bool)
    ensures ok == ValidTopic(topic)
  {
    if topic == "" {
      return false;
    }
    var segs := Segments(topic);
    for k := 0 to |segs|
      invariant forall j :: 0 <= j < k ==> segs[j] != "" && forall i :: 0 <= i < |segs[j]| ==> !BadChar(segs[j][i])
    {
      var g := segs[k];
      assert g in segs;
      if g == "" {
        return false;
      }
      for i := 0 to |g|
        invariant forall j :: 0 <= j < i ==> !BadChar(g[j])
      {
        if BadChar(g[i]) {
          return false;
        }
      }
    }
    return true;
  }
}
