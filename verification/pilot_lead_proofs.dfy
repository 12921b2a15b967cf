/** Properties of the pilot-lead handler: what trim and clean keep, the
    email check against the pattern it implements, and the order of the
    checks. */
module PilotLeadProofs {
  import opened Wrappers
  import opened PilotLead

  // ---------------------------------------------------------------------
  // Trim and clean

  /** A string without whitespace at either end is its own trim. */
  lemma TrimFixed(s: string)
    requires |s| > 0 ==> !IsJsSpace(s[0]) && !IsJsSpace(s[|s| - 1])
    ensures Trim(s) == s
  {
    if |s| > 0 {
      assert LeadingSpace(s) == 0;
      assert s[0..] == s;
      assert TrailingSpace(s) == 0;
    }
  }

  /** Trimming twice is trimming once. */
  lemma TrimIdempotent(s: string)
    ensures Trim(Trim(s)) == Trim(s)
  {
    TrimFixed(Trim(s));
  }

  /** Cleaning a cleaned value again changes nothing when the first pass
      did not cut: the result has no whitespace at its ends. */
  lemma CleanStableWithoutCut(s: string, maxLength: nat)
    requires |Trim(s)| <= maxLength
    ensures Clean(JString(Clean(JString(s), maxLength)), maxLength) == Clean(JString(s), maxLength)
  {
    TrimIdempotent(s);
  }

  /** One trailing blank after a trimmed string is what trim removes. */
  lemma TrimDropsTrailingBlank(t: string)
    requires |t| > 0 && !IsJsSpace(t[0]) && !IsJsSpace(t[|t| - 1])
    ensures Trim(t + " ") == t
  {
    var s := t + " ";
    assert LeadingSpace(s) == 0;
    assert s[0..] == s && s[..|s| - 1] == t;
    assert TrailingSpace(s) == 1;
  }

  /** But clean is not idempotent: cutting "ab c" to three characters
      leaves "ab ", whose trailing blank a second pass removes. */
  lemma CleanNotIdempotent()
    ensures Clean(JString("ab c"), 3) == "ab "
    ensures Clean(JString(Clean(JString("ab c"), 3)), 3) == "ab"
  {
    TrimFixed("ab c");
    assert "ab c"[..3] == "ab" + " ";
    TrimDropsTrailingBlank("ab");
  }

  // ---------------------------------------------------------------------
  // The email pattern

  /** Occurrences add up over a split. */
  lemma {:induction false} OccurrencesSplit(s: string, c: char, k: nat)
    requires k <= |s|
    ensures Occurrences(s, c) == Occurrences(s[..k], c) + Occurrences(s[k..], c)
    decreases k
  {
    if k > 0 {
      OccurrencesSplit(s[1..], c, k - 1);
      assert s[1..][..k - 1] == s[..k][1..];
      assert s[1..][k - 1..] == s[k..];
    } else {
      assert s[..0] == [] && s[0..] == s;
    }
  }

  /** An '@' that occurs once is the only one: none before, none after. */
  lemma SoleOccurrence(s: string, i: nat)
    requires i < |s| && s[i] == '@' && '@' !in s[..i]
    ensures Occurrences(s, '@') == 1 <==> '@' !in s[i + 1..]
  {
    OccurrencesSplit(s, '@', i);
    assert s[i..][1..] == s[i + 1..];
  }

  /** The first '@' is the one at `i` when none comes before it. */
  lemma IndexOfIs(s: string, i: nat)
    requires i < |s| && s[i] == '@' && '@' !in s[..i]
    ensures IndexOf(s, '@') == i
  {
    var k := IndexOf(s, '@');
    forall m | 0 <= m < i ensures s[m] != '@' { assert s[m] == s[..i][m]; }
    forall m | 0 <= m < k ensures s[m] != '@' { assert s[m] == s[..k][m]; }
  }

  /** The check accepts what the pattern matches. */
  lemma PatternImpliesValid(s: string, i: nat, j: nat)
    requires 0 <= i < j < |s| && s[i] == '@' && s[j] == '.'
    requires Segment(s[..i]) && Segment(s[i + 1..j]) && Segment(s[j + 1..])
    ensures IsValidEmail(s)
  {
    forall k | 0 <= k < |s| ensures EmailChar(s[k]) || k == i {
      if k < i {
        assert s[k] == s[..i][k];
      } else if i < k < j {
        assert s[k] == s[i + 1..j][k - i - 1];
      } else if j < k {
        assert s[k] == s[j + 1..][k - j - 1];
      }
    }
    assert '@' !in s[..i] by {
      forall k | 0 <= k < i ensures s[..i][k] != '@' { assert EmailChar(s[k]); }
    }
    var after := s[i + 1..];
    assert '@' !in after by {
      forall k | 0 <= k < |after| ensures after[k] != '@' { assert EmailChar(s[i + 1 + k]); }
    }
    SoleOccurrence(s, i);
    IndexOfIs(s, i);
    var domain := s[i + 1..];
    assert domain[1..|domain| - 1][j - i - 2] == s[j];
  }

  /** The pattern matches what the check accepts. */
  lemma ValidImpliesPattern(s: string)
    requires IsValidEmail(s)
    ensures MatchesEmailPattern(s)
  {
    var i := IndexOf(s, '@');
    var domain := s[i + 1..];
    var inner := domain[1..|domain| - 1];
    var p :| 0 <= p < |inner| && inner[p] == '.';
    var j := i + 2 + p;
    assert s[j] == '.';
    SoleOccurrence(s, i);
    forall k | 0 <= k < |s| && k != i ensures EmailChar(s[k]) {
      if k < i {
        assert s[..i][k] == s[k];
      } else {
        assert domain[k - i - 1] == s[k];
      }
    }
    assert Segment(s[..i]) by {
      forall k | 0 <= k < i ensures EmailChar(s[..i][k]) { assert s[..i][k] == s[k]; }
    }
    var host := s[i + 1..j];
    assert Segment(host) by {
      forall k | 0 <= k < |host| ensures EmailChar(host[k]) { assert host[k] == s[i + 1 + k]; }
    }
    var top := s[j + 1..];
    assert Segment(top) by {
      forall k | 0 <= k < |top| ensures EmailChar(top[k]) { assert top[k] == s[j + 1 + k]; }
    }
  }

  /** `isValidEmail` accepts exactly the strings its regular expression
      matches. */
  lemma EmailCheckMatchesPattern(s: string)
    ensures IsValidEmail(s) <==> MatchesEmailPattern(s)
  {
    if IsValidEmail(s) {
      ValidImpliesPattern(s);
    }
    if MatchesEmailPattern(s) {
      var i, j :| 0 <= i < j < |s| && s[i] == '@' && s[j] == '.'
        && Segment(s[..i]) && Segment(s[i + 1..j]) && Segment(s[j + 1..]);
      PatternImpliesValid(s, i, j);
    }
  }

  /** Two '@'s make an address invalid, and so does a missing top-level
      part. */
  lemma EmailExamples()
    ensures IsValidEmail("a@b.c")
    ensures !IsValidEmail("a@b@c.d")
    ensures !IsValidEmail("a@b.")
  {
    PatternImpliesValid("a@b.c", 1, 3);
    assert Occurrences("a@b@c.d", '@') == 2;
    assert IndexOf("a@b.", '@') == 1;
  }

  // ---------------------------------------------------------------------
  // The handler's order of checks

  /** A filled honeypot wins: success, nothing sent, whatever the other
      fields hold. */
  lemma HoneypotWins(b: LeadBody, notify: NotifyOutcome)
    requires Clean(b.website, HoneypotCap) != ""
    ensures HandleLead(JsonObject(b), notify) == LeadResponse(200, OkReply, None)
  {
  }

  /** Missing required fields are reported before a malformed email. */
  lemma MissingFieldsFirst(b: LeadBody, notify: NotifyOutcome)
    requires Clean(b.website, HoneypotCap) == ""
    requires !HasRequired(CleanLead(b))
    ensures HandleLead(JsonObject(b), notify) == LeadResponse(400, ErrorReply(MissingFields), None)
  {
  }

  /** With every required field present, an address the pattern rejects
      gives the email error and nothing is sent. */
  lemma BadEmailRejected(b: LeadBody, notify: NotifyOutcome)
    requires Clean(b.website, HoneypotCap) == ""
    requires HasRequired(CleanLead(b))
    requires !MatchesEmailPattern(CleanLead(b).email)
    ensures HandleLead(JsonObject(b), notify) == LeadResponse(400, ErrorReply(InvalidEmail), None)
  {
    EmailCheckMatchesPattern(CleanLead(b).email);
  }

  /** A lead that passes every check is handed to the notifier within the
      length caps; success unless the notifier fails. An empty message is
      allowed. */
  lemma AcceptedLead(b: LeadBody, notify: NotifyOutcome)
    requires Clean(b.website, HoneypotCap) == ""
    requires HasRequired(CleanLead(b))
    requires MatchesEmailPattern(CleanLead(b).email)
    ensures var r := HandleLead(JsonObject(b), notify);
      r.notified == Some(CleanLead(b))
      && (r.status == 200 <==> notify != SendFailed)
      && (r.status != 200 ==> r == LeadResponse(500, ErrorReply(SubmitFailed), Some(CleanLead(b))))
  {
    EmailCheckMatchesPattern(CleanLead(b).email);
  }
}
