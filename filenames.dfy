/** The file-name sanitiser (sanitizeFileName): a single left-to-right pass
    that turns a space into an underscore, a slash into a hyphen and deletes
    colons and apostrophes. All four characters are ASCII, so working on
    characters gives the same result as the byte-wise replacer. */
module FileNames {

  /** The characters the sanitiser rewrites; none of them survives it. */
  predicate IsRewritten(c: char) {
    c == ' ' || c == '/' || c == ':' || c == '\''
  }

  /** The characters the sanitiser deletes outright. */
  predicate IsDropped(c: char) {
    c == ':' || c == '\''
  }

  /** How many characters of `s` the sanitiser deletes. */
  function DroppedCount(s: string): nat {
    multiset(s)[':'] + multiset(s)['\'']
  }

  /** The character that a kept character becomes. */
  function Substitute(c: char): char {
    if c == ' ' then '_' else if c == '/' then '-' else c
  }

  /** What the sanitiser writes in place of one input character. */
  function Replacement(c: char): string {
    if IsDropped(c) then "" else [Substitute(c)]
  }

  function Sanitize(name: string): (r: string)
    ensures forall i :: 0 <= i < |r| ==> !IsRewritten(r[i])
  {
    if name == [] then "" else Replacement(name[0]) + Sanitize(name[1..])
  }

  /** The sanitised name is shorter than the title by exactly the number of
      colons and apostrophes; every other character maps to one character. */
  lemma {:induction false} SanitizeLength(s: string)
    ensures |Sanitize(s)| == |s| - DroppedCount(s)
  {
    if s != [] {
      assert s == [s[0]] + s[1..];
      SanitizeLength(s[1..]);
    }
  }

  /** The output file name derived from a title. */
  function FileName(title: string): string {
    Sanitize(title) + ".md"
  }

  /** The file name is the sanitised title plus the three characters of
      ".md"; no space, slash, colon or apostrophe is left before the suffix. */
  lemma FileNameShape(title: string)
    ensures var r := FileName(title);
      && |r| == |title| - DroppedCount(title) + 3
      && r[|r| - 3..] == ".md"
      && forall i :: 0 <= i < |r| - 3 ==> !IsRewritten(r[i])
  {
    SanitizeLength(title);
  }

  /** Sanitising distributes over concatenation: it is a character-by-character
      rewrite with no look-ahead. */
  lemma {:induction false} SanitizeAppend(a: string, b: string)
    ensures Sanitize(a + b) == Sanitize(a) + Sanitize(b)
  {
    if a == [] {
      assert a + b == b;
    } else {
      assert (a + b)[1..] == a[1..] + b;
      SanitizeAppend(a[1..], b);
    }
  }

  /** Every kept character lands, substituted, at its own position minus the
      number of characters deleted before it: the kept characters appear in
      order and one-for-one. */
  lemma {:induction false} SanitizeAt(s: string, i: nat)
    requires i < |s| && !IsDropped(s[i])
    ensures DroppedCount(s[..i]) <= i
    ensures i - DroppedCount(s[..i]) < |Sanitize(s)|
    ensures Sanitize(s)[i - DroppedCount(s[..i])] == Substitute(s[i])
    ensures !IsRewritten(s[i]) ==> Sanitize(s)[i - DroppedCount(s[..i])] == s[i]
  {
    SanitizeLength(s[..i]);
    assert s == [s[0]] + s[1..];
    if i == 0 {
      assert s[..0] == [];
    } else {
      var t := s[1..];
      assert s[..i] == [s[0]] + t[..i - 1];
      SanitizeAt(t, i - 1);
      assert |Replacement(s[0])| == 1 - DroppedCount([s[0]]);
    }
  }

  /** A name is left as it is exactly when it holds none of the four
      rewritten characters. */
  lemma {:induction false} SanitizeFixedPoint(s: string)
    ensures Sanitize(s) == s <==> forall i :: 0 <= i < |s| ==> !IsRewritten(s[i])
  {
    if s != [] && forall i :: 0 <= i < |s| ==> !IsRewritten(s[i]) {
      assert !IsRewritten(s[0]);
      assert forall i :: 0 <= i < |s[1..]| ==> !IsRewritten(s[1..][i]);
      SanitizeFixedPoint(s[1..]);
      assert Sanitize(s) == [s[0]] + s[1..];
    }
  }

  /** Sanitising a sanitised name changes nothing. */
  lemma SanitizeIdempotent(s: string)
    ensures Sanitize(Sanitize(s)) == Sanitize(s)
  {
    SanitizeFixedPoint(Sanitize(s));
  }

  /** A one-character name becomes that character's replacement. */
  lemma SanitizeChar(c: char)
    ensures Sanitize([c]) == Replacement(c)
  {
    assert [c][1..] == [];
  }

  /** A worked example: only the apostrophe is deleted, so the "s" after
      it stays: "Foo: Bar's/Baz" becomes "Foo_Bars-Baz". */
  lemma SanitizeExample()
    ensures Sanitize("Foo: " + "Bar's" + "/Baz") == "Foo_" + "Bars" + "-Baz"
  {
    SanitizeColonSpace();
    SanitizeApostrophe();
    SanitizeSlash();
    SanitizeAppend("Foo: ", "Bar's");
    SanitizeAppend("Foo: " + "Bar's", "/Baz");
  }

  lemma SanitizeColonSpace()
    ensures Sanitize("Foo: ") == "Foo_"
  {
  }

  lemma SanitizeApostrophe()
    ensures Sanitize("Bar's") == "Bars"
  {
  }

  lemma SanitizeSlash()
    ensures Sanitize("/Baz") == "-Baz"
  {
  }

  /** Two different titles can share a file name: "A/B" and "A-B" both
      become "A-B.md". */
  lemma FileNameCollision()
    ensures "A/B" != "A-B" && FileName("A/B") == FileName("A-B") == "A-B.md"
  {
    assert Sanitize("A/B") == "A-B";
    SanitizeFixedPoint("A-B");
  }
}
