/** The very text that an injection writes. */
module MarkerExample {
  import opened Numbers
  import opened Sequences
  import opened Substrings
  import opened MarkerHeader
  import opened Markers
  import opened MarkerCycles

  lemma EmptyHasNoBlock()
    ensures FindBlock("") == None
  {
    FindMeans("", START, 0);
  }

  lemma NormalisedX()
    ensures Normalised("x") == "\nx\n"
  {
    StartPoints("x");
    EndPoints("\nx");
  }

  lemma HexIs()
    ensures HexLower([0xab, 0x0c]) == "ab0c"
  {
    var two: seq<Byte> := [0xab, 0x0c];
    assert two[1..] == [0x0c] && two[1..][1..] == [];
    assert HexPair(0xab) == "ab" && HexPair(0x0c) == "0c";
  }

  lemma HeaderIs()
    ensures Header("ab0c") == "<!-- mneme-start v1.0 sha256=ab0c -->"
  {
  }

  lemma RenderedIs(digest: Digest)
    requires digest("\nx\n") == [0xab, 0x0c]
    ensures Rendered(digest, "x") == "<!-- mneme-start v1.0 sha256=ab0c -->" + "\nx\n" + "<!-- mneme-end -->"
  {
    NormalisedX();
    HexIs();
    HeaderIs();
  }

  lemma InFront(a: string)
    ensures "" + "" + a + "\n" == a + "\n"
  {
  }

  /** Into an empty text, with a digest of two bytes, say. */
  lemma InjectedText(digest: Digest, force: bool)
    requires digest("\nx\n") == [0xab, 0x0c]
    ensures Injected(digest, "", "x", force)
         == Ok("<!-- mneme-start v1.0 sha256=ab0c -->" + "\nx\n" + "<!-- mneme-end -->" + "\n")
  {
    EmptyHasNoBlock();
    InjectAppends(digest, "", "x", force);
    EmptySeparator();
    InFront(Rendered(digest, "x"));
    RenderedIs(digest);
  }

  lemma EmptySeparator()
    ensures Separator("") == ""
  {
  }
}
