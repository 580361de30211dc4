/** The text cleaning done before a reply is spoken (src/App.tsx:214-216):
    `result.replace(/[*_`~^]/g, "").replace(/[^\u0000-\u007F]/g, "")`.

    JavaScript strings are UTF-16 code units while a Dafny `char` is a Unicode
    scalar value; a character outside the Basic Multilingual Plane is two code
    units above 0x7F, both of which the second pass removes, so removing the whole
    character here gives the same text. */
module Speech {
  import opened Common

  /** The characters of the class `[*_`~^]`: markdown emphasis and code marks. */
  predicate IsMarkup(c: char) {
    c == '*' || c == '_' || c == '`' || c == '~' || c == '^'
  }

  predicate IsAscii(c: char) {
    c as int <= 0x7F
  }

  /** `.replace(/[*_`~^]/g, "")`. */
  function DropMarkup(s: string): (r: string)
    ensures |r| <= |s|
    decreases |s|
  {
    if s == [] then [] else (if IsMarkup(s[0]) then [] else [s[0]]) + DropMarkup(s[1..])
  }

  /** `.replace(/[^\u0000-\u007F]/g, "")`. */
  function DropNonAscii(s: string): (r: string)
    ensures |r| <= |s|
    decreases |s|
  {
    if s == [] then [] else (if IsAscii(s[0]) then [s[0]] else []) + DropNonAscii(s[1..])
  }

  /** The text handed to text-to-speech. */
  function Sanitize(s: string): string {
    DropNonAscii(DropMarkup(s))
  }

  /** A character is spoken when it is ASCII and not a markup mark. */
  predicate Spoken(c: char) {
    IsAscii(c) && !IsMarkup(c)
  }

  /** The reference definition: one pass keeping the spoken characters. */
  function KeepSpoken(s: string): (r: string)
    decreases |s|
  {
    if s == [] then [] else (if Spoken(s[0]) then [s[0]] else []) + KeepSpoken(s[1..])
  }

  lemma {:induction false} DropNonAsciiAppend(a: string, b: string)
    ensures DropNonAscii(a + b) == DropNonAscii(a) + DropNonAscii(b)
    decreases |a|
  {
    if a == [] {
      assert a + b == b;
    } else {
      var h := if IsAscii(a[0]) then [a[0]] else [];
      assert (a + b)[0] == a[0] && (a + b)[1..] == a[1..] + b;
      assert DropNonAscii(a + b) == h + DropNonAscii(a[1..] + b);
      DropNonAsciiAppend(a[1..], b);
      assert DropNonAscii(a) == h + DropNonAscii(a[1..]);
    }
  }

  /** The two passes keep exactly the spoken characters, in order. */
  lemma {:induction false} SanitizeKeepsSpoken(s: string)
    ensures Sanitize(s) == KeepSpoken(s)
    decreases |s|
  {
    if s != [] {
      var head := if IsMarkup(s[0]) then [] else [s[0]];
      DropNonAsciiAppend(head, DropMarkup(s[1..]));
      SanitizeKeepsSpoken(s[1..]);
    }
  }

  /** Every character of the reference is spoken and comes from the input. */
  lemma {:induction false} KeepSpokenChars(s: string)
    ensures forall c :: c in KeepSpoken(s) <==> c in s && Spoken(c)
    decreases |s|
  {
    if s != [] {
      KeepSpokenChars(s[1..]);
      assert s == [s[0]] + s[1..];
    }
  }

  lemma {:induction false} KeepSpokenOrder(s: string)
    ensures IsSubsequence(KeepSpoken(s), s)
    decreases |s|
  {
    if s != [] {
      var rest := KeepSpoken(s[1..]);
      KeepSpokenOrder(s[1..]);
      if Spoken(s[0]) {
        assert ([s[0]] + rest)[1..] == rest;
      } else {
        KeepSpokenChars(s[1..]);
        assert KeepSpoken(s) == [] + rest == rest;
        assert rest != [] ==> rest[0] in rest && rest[0] != s[0];
      }
    }
  }

  /** Nothing is left to remove from a text of spoken characters. */
  lemma {:induction false} KeepSpokenOfSpoken(s: string)
    requires forall c :: c in s ==> Spoken(c)
    ensures KeepSpoken(s) == s
    decreases |s|
  {
    if s != [] {
      assert s[0] in s;
      assert forall c :: c in s[1..] ==> c in s;
      KeepSpokenOfSpoken(s[1..]);
      assert [s[0]] + s[1..] == s;
    }
  }

  /** The spoken text holds no markup mark and no non-ASCII character, and it keeps
      every other character of the reply, in order. */
  lemma SanitizeProperties(s: string)
    ensures forall c :: c in Sanitize(s) ==> !IsMarkup(c) && IsAscii(c)
    ensures forall c :: c in s && Spoken(c) ==> c in Sanitize(s)
    ensures IsSubsequence(Sanitize(s), s)
  {
    SanitizeKeepsSpoken(s);
    KeepSpokenChars(s);
    KeepSpokenOrder(s);
  }

  /** Cleaning twice is cleaning once. */
  lemma SanitizeIdempotent(s: string)
    ensures Sanitize(Sanitize(s)) == Sanitize(s)
  {
    SanitizeKeepsSpoken(s);
    SanitizeKeepsSpoken(KeepSpoken(s));
    KeepSpokenChars(s);
    KeepSpokenOfSpoken(KeepSpoken(s));
  }
}
