/** The newsletter field: the input is trimmed and accepted when it is non-empty and
    matches the e-mail pattern `^[^\s@]+@[^\s@]+\.[^\s@]+$`. */
module Newsletter {
  import opened JsValues
  import opened Seqs

  /** A character of the class `[^\s@]`. */
  predicate Plain(c: char)
  {
    !IsWhitespace(c) && c != '@'
  }

  predicate AllPlain(s: string)
  {
    forall i | 0 <= i < |s| :: Plain(s[i])
  }

  predicate NoWhitespace(s: string)
  {
    forall i | 0 <= i < |s| :: !IsWhitespace(s[i])
  }

  /** The language of `^[^\s@]+@[^\s@]+\.[^\s@]+$`: a non-empty run of plain
      characters, `@`, a non-empty run, a literal `.`, a non-empty run. */
  ghost predicate MatchesPattern(s: string)
  {
    exists at, dot | 0 < at && at + 1 < dot && dot + 1 < |s| ::
      && s[at] == '@' && s[dot] == '.'
      && AllPlain(s[..at]) && AllPlain(s[at + 1..dot]) && AllPlain(s[dot + 1..])
  }

  /** The domain has a `.` that is neither its first nor its last character. */
  predicate HasInnerDot(domain: string)
  {
    exists k | 0 < k < |domain| - 1 :: domain[k] == '.'
  }

  predicate IsAt(c: char)
  {
    c == '@'
  }

  /** The shape `validateEmail` checks, over positions: no whitespace; exactly one `@`,
      preceded by a non-empty local part; and a domain part with an inner dot. */
  predicate EmailShape(email: string)
  {
    var at := FindIndex(email, IsAt);
    && NoWhitespace(email)
    && 0 < at
    && (forall k | at < k < |email| :: email[k] != '@')
    && HasInnerDot(email[at + 1..])
  }

  /** `validateEmail`: accepts exactly the strings the regular expression matches. */
  function ValidateEmail(email: string): (r: bool)
    ensures r <==> MatchesPattern(email)
  {
    ShapeMatchesPattern(email);
    EmailShape(email)
  }

  /** The newsletter button's check, `email && validateEmail(email)` on the trimmed
      input: surrounding whitespace never matters, whitespace inside always does. */
  function Subscribes(input: string): (r: bool)
    ensures r <==> MatchesPattern(Trim(input))
  {
    var email := Trim(input);
    email != "" && ValidateEmail(email)
  }

  // ---------------------------------------------------------------------------
  // Lemmas

  lemma {:induction false} PatternOfShape(s: string)
    requires EmailShape(s)
    ensures MatchesPattern(s)
  {
    var at := FindIndex(s, IsAt);
    var domain := s[at + 1..];
    var k :| 0 < k < |domain| - 1 && domain[k] == '.';
    var dot := at + 1 + k;
    assert s[dot] == domain[k] == '.';
    var local, mid, tail := s[..at], s[at + 1..dot], s[dot + 1..];
    forall i | 0 <= i < |local| ensures Plain(local[i]) {
      assert !IsAt(s[i]);
    }
    forall i | 0 <= i < |mid| ensures Plain(mid[i]) {
      assert mid[i] == s[at + 1 + i];
    }
    forall i | 0 <= i < |tail| ensures Plain(tail[i]) {
      assert tail[i] == s[dot + 1 + i];
    }
    assert 0 < at && at + 1 < dot && dot + 1 < |s| && s[at] == '@' && s[dot] == '.'
      && AllPlain(local) && AllPlain(mid) && AllPlain(tail);
  }

  lemma {:induction false} ShapeOfPattern(s: string)
    requires MatchesPattern(s)
    ensures EmailShape(s)
  {
    var at, dot :| 0 < at && at + 1 < dot && dot + 1 < |s|
      && s[at] == '@' && s[dot] == '.'
      && AllPlain(s[..at]) && AllPlain(s[at + 1..dot]) && AllPlain(s[dot + 1..]);
    var local, mid, tail := s[..at], s[at + 1..dot], s[dot + 1..];
    forall i | 0 <= i < |s| && i != at && i != dot
      ensures Plain(s[i])
    {
      if i < at {
        assert local[i] == s[i];
      } else if i < dot {
        assert mid[i - at - 1] == s[i];
      } else {
        assert tail[i - dot - 1] == s[i];
      }
    }
    assert forall i | 0 <= i < at :: !IsAt(s[i]);
    assert IsAt(s[at]);
    assert FindIndex(s, IsAt) == at;
    var domain := s[at + 1..];
    assert domain[dot - at - 1] == '.';
  }

  /** The positional shape and the regular expression's language are the same set. */
  lemma ShapeMatchesPattern(s: string)
    ensures EmailShape(s) <==> MatchesPattern(s)
  {
    if EmailShape(s) {
      PatternOfShape(s);
    }
    if MatchesPattern(s) {
      ShapeOfPattern(s);
    }
  }

  /** The shape of an accepted address, stated over positions: no whitespace,
      exactly one `@` with something before it, and an inner dot after it. */
  lemma ValidateEmailShape(s: string)
    ensures ValidateEmail(s) <==>
      && NoWhitespace(s)
      && (exists at | 0 < at < |s| ::
            && s[at] == '@'
            && (forall k | 0 <= k < |s| && k != at :: s[k] != '@')
            && HasInnerDot(s[at + 1..]))
  {
    if ValidateEmail(s) {
      var at := FindIndex(s, IsAt);
      assert forall k | 0 <= k < at :: !IsAt(s[k]);
      assert forall k | 0 <= k < |s| && k != at :: s[k] != '@';
    }
    if NoWhitespace(s) && (exists at | 0 < at < |s| ::
            && s[at] == '@'
            && (forall k | 0 <= k < |s| && k != at :: s[k] != '@')
            && HasInnerDot(s[at + 1..])) {
      var at :| 0 < at < |s| && s[at] == '@'
            && (forall k | 0 <= k < |s| && k != at :: s[k] != '@')
            && HasInnerDot(s[at + 1..]);
      assert IsAt(s[at]);
      assert forall k | 0 <= k < at :: !IsAt(s[k]);
      assert FindIndex(s, IsAt) == at;
    }
  }
}
