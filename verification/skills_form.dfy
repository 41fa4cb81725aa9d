/** The Skills textarea. Typing parses the text into the skill list by
    splitting on commas, trimming every piece and dropping the empty ones;
    the list is shown back joined with ", ". */
module SkillsForm {
  import opened Text
  import opened Results

  /** What the parser can produce: non-empty, trimmed and comma-free. */
  predicate IsSkill(x: string) {
    |x| > 0 && IsTrimmed(x) && ',' !in x
  }

  predicate AllSkills(xs: seq<string>) {
    forall k :: 0 <= k < |xs| ==> IsSkill(xs[k])
  }

  /** Trims every piece and keeps the non-empty results, in order. */
  function Clean(pieces: seq<string>): (r: seq<string>)
    ensures |r| <= |pieces|
    ensures (forall k :: 0 <= k < |pieces| ==> ',' !in pieces[k]) ==> AllSkills(r)
  {
    if |pieces| == 0 then []
    else
      var t := Trim(pieces[0]);
      TrimKeepsAbsentChar(pieces[0], ',');
      (if t == "" then [] else [t]) + Clean(pieces[1..])
  }

  /** The `onChange` handler: text to skill list. */
  function Parse(text: string): (r: seq<string>)
    ensures AllSkills(r)
  {
    Clean(Split(text, ','))
  }

  /** The textarea's `value`: the list joined with ", " when the field holds
      an array, and "" otherwise; text shown for a parsed list parses back to
      that list. */
  function Display(value: Option<seq<string>>): (r: string)
    ensures value.None? ==> r == ""
    ensures value.Some? ==> r == Join(value.value, ", ")
    ensures value.Some? && AllSkills(value.value) ==> Parse(r) == value.value
  {
    match value
    case None => ""
    case Some(xs) =>
      if AllSkills(xs) then ParseDisplay(xs); Join(xs, ", ")
      else Join(xs, ", ")
  }

  lemma {:induction false} CleanAppend(a: seq<string>, b: seq<string>)
    ensures Clean(a + b) == Clean(a) + Clean(b)
    decreases |a|
  {
    if |a| == 0 {
      assert a + b == b;
    } else {
      assert (a + b)[1..] == a[1..] + b;
      CleanAppend(a[1..], b);
    }
  }

  /** One piece gives nothing when it is blank and its trimmed text
      otherwise; with `CleanAppend` this fixes `Clean` on every list. */
  lemma CleanSingle(p: string)
    ensures Clean([p]) == if AllWhitespace(p) then [] else [Trim(p)]
  {
    TrimEmptyIff(p);
  }

  /** Skills keep their input order: the text before a comma contributes its
      skills ahead of the text after it. */
  lemma ParseAtComma(a: string, b: string)
    ensures Parse(a + [','] + b) == Parse(a) + Parse(b)
  {
    SplitAtSeparator(a, b, ',');
    CleanAppend(Split(a, ','), Split(b, ','));
  }

  /** Comma-free text is one piece: no skill if it is blank, otherwise the
      trimmed text. */
  lemma ParseWithoutComma(s: string)
    requires ',' !in s
    ensures Parse(s) == if AllWhitespace(s) then [] else [Trim(s)]
  {
    SplitWithoutSeparator(s, ',');
    TrimEmptyIff(s);
  }

  /** Whitespace in front of the text changes nothing. */
  lemma ParseSkipsLeadingWhitespace(c: char, s: string)
    requires IsWhitespace(c)
    ensures Parse([c] + s) == Parse(s)
  {
    var t := [c] + s;
    assert t[1..] == s;
    var rest := Split(s, ',');
    assert Split(t, ',') == [[c] + rest[0]] + rest[1..];
    TrimSkipsLeadingWhitespace(c, rest[0]);
    assert rest == [rest[0]] + rest[1..];
  }

  predicate IsBlankOrComma(c: char) {
    IsWhitespace(c) || c == ','
  }

  predicate AllBlank(pieces: seq<string>) {
    forall k :: 0 <= k < |pieces| ==> AllWhitespace(pieces[k])
  }

  lemma {:induction false} CleanEmptyIff(pieces: seq<string>)
    ensures Clean(pieces) == [] <==> AllBlank(pieces)
    decreases |pieces|
  {
    if |pieces| > 0 {
      TrimEmptyIff(pieces[0]);
      CleanEmptyIff(pieces[1..]);
      if AllBlank(pieces[1..]) && AllWhitespace(pieces[0]) {
        forall k | 0 <= k < |pieces|
          ensures AllWhitespace(pieces[k])
        {
          if k > 0 {
            assert pieces[k] == pieces[1..][k - 1];
          }
        }
      }
    }
  }

  lemma {:induction false} SplitBlankIff(s: string)
    ensures AllBlank(Split(s, ',')) <==> forall i :: 0 <= i < |s| ==> IsBlankOrComma(s[i])
    decreases |s|
  {
    if |s| > 0 {
      var rest := Split(s[1..], ',');
      SplitBlankIff(s[1..]);
      var pieces := Split(s, ',');
      if s[0] == ',' {
        assert pieces == [""] + rest;
        assert AllBlank(pieces) <==> AllBlank(rest);
      } else {
        assert pieces == [[s[0]] + rest[0]] + rest[1..];
        assert AllWhitespace(pieces[0]) <==> IsWhitespace(s[0]) && AllWhitespace(rest[0]) by {
          assert pieces[0][0] == s[0];
          assert forall j :: 0 <= j < |rest[0]| ==> pieces[0][j + 1] == rest[0][j];
        }
        assert AllBlank(pieces) <==> AllWhitespace(pieces[0]) && AllBlank(rest[1..]);
        assert AllBlank(rest) <==> AllWhitespace(rest[0]) && AllBlank(rest[1..]);
      }
      assert (forall i :: 0 <= i < |s| ==> IsBlankOrComma(s[i]))
             <==> IsBlankOrComma(s[0]) && (forall i :: 0 <= i < |s[1..]| ==> IsBlankOrComma(s[1..][i]));
    }
  }

  /** The empty text, and any text of only whitespace and commas, is exactly
      what parses to no skills. */
  lemma ParseEmptyIff(s: string)
    ensures Parse(s) == [] <==> forall i :: 0 <= i < |s| ==> IsBlankOrComma(s[i])
  {
    CleanEmptyIff(Split(s, ','));
    SplitBlankIff(s);
  }

  /** Round trip: parsing the displayed text of a list of skills gives the
      same list back. */
  lemma {:induction false} ParseDisplay(xs: seq<string>)
    requires AllSkills(xs)
    ensures Parse(Join(xs, ", ")) == xs
    decreases |xs|
  {
    if |xs| == 0 {
      assert Split("", ',') == [""];
    } else if |xs| == 1 {
      ParseWithoutComma(xs[0]);
      TrimOfTrimmed(xs[0]);
    } else {
      var rest := Join(xs[1..], ", ");
      assert Join(xs, ", ") == xs[0] + [','] + ([' '] + rest);
      ParseAtComma(xs[0], [' '] + rest);
      ParseWithoutComma(xs[0]);
      TrimOfTrimmed(xs[0]);
      ParseSkipsLeadingWhitespace(' ', rest);
      ParseDisplay(xs[1..]);
      assert xs == [xs[0]] + xs[1..];
    }
  }

  /** Re-parsing what the textarea shows after an edit changes nothing. */
  lemma ParseIdempotent(s: string)
    ensures Parse(Display(Some(Parse(s)))) == Parse(s)
  {
  }
}
