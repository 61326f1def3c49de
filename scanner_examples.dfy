/** Worked inputs for the scorer, proved from the general lemmas.  The
    solver reads long string literals slowly, so each text is handled as a
    few short pieces and its facts are established piece by piece. */
module ExampleTexts {
  import opened Text

  /** `k` occurs in any text built as `before + k + after`. */
  lemma FoundBetween(before: string, k: string, after: string, text: string)
    requires text == before + k + after
    ensures Contains(text, k)
  {
    assert OccursAt(text, k, |before|);
    ContainsIffOccurs(text, k);
  }

  /** A string cannot occur in a text that lacks one of its characters. */
  lemma MissingChar(text: string, k: string, j: int)
    requires 0 <= j < |k| && k[j] !in text
    ensures !Contains(text, k)
  {
    ContainsIffOccurs(text, k);
  }

  /** A prefix free of the first character of `k` adds no occurrence of `k`. */
  lemma {:induction false} SkipFreePrefix(a: string, b: string, k: string)
    requires |k| > 0 && k[0] !in a && !Contains(b, k)
    ensures !Contains(a + b, k)
    decreases |a|
  {
    if a == [] {
      assert a + b == b;
    } else {
      assert (a + b)[0] == a[0];
      assert (a + b)[1..] == a[1..] + b;
      SkipFreePrefix(a[1..], b, k);
    }
  }

  /** `k` does not occur in a text that does not start with it and whose
      remainder lacks one of its characters. */
  lemma NotHereNorLater(text: string, k: string, j: int)
    requires |text| > 0 && !StartsWith(text, k)
    requires 0 <= j < |k| && k[j] !in text[1..]
    ensures !Contains(text, k)
  {
    MissingChar(text[1..], k, j);
  }

  lemma LowerJoin(a: string, b: string, la: string, lb: string)
    requires Lower(a) == la && Lower(b) == lb
    ensures Lower(a + b) == la + lb
  {
    assert Lower(a + b) == Lower(a) + Lower(b);
  }

  // "Please verify your account at http://bit.ly/x", lowercased, in pieces
  // that line up with the entries it contains

  const Lure: string := "Please " + "verify your account" + " at " + "http://" + "bit.ly" + "/x"

  predicate IsLoweredLure(c: string)
  {
    c == "please " + "verify your account" + " at " + "http://" + "bit.ly" + "/x"
  }

  lemma LureOpeningLowered()
    ensures Lower("Please " + "verify your account") == "please " + "verify your account"
  {
    assert Lower("Please ") == "please ";
    assert Lower("verify your account") == "verify your account";
    LowerJoin("Please ", "verify your account", "please ", "verify your account");
  }

  lemma LureLinkLowered()
    ensures Lower("http://" + "bit.ly" + "/x") == "http://" + "bit.ly" + "/x"
  {
    assert Lower("http://") == "http://";
    assert Lower("bit.ly") == "bit.ly";
    assert Lower("/x") == "/x";
    LowerJoin("http://", "bit.ly", "http://", "bit.ly");
    LowerJoin("http://" + "bit.ly", "/x", "http://" + "bit.ly", "/x");
  }

  lemma LureLowered()
    ensures IsLoweredLure(Lower(Lure))
  {
    var opening := "Please " + "verify your account";
    var link := "http://" + "bit.ly" + "/x";
    LureOpeningLowered();
    LureLinkLowered();
    assert Lower(" at ") == " at ";
    LowerJoin(opening, " at ", "please " + "verify your account", " at ");
    LowerJoin(opening + " at ", link, "please " + "verify your account" + " at ", link);
  }

  lemma LurePhrase(c: string)
    requires IsLoweredLure(c)
    ensures Contains(c, "verify your account")
  {
    FoundBetween("please ", "verify your account", " at " + "http://" + "bit.ly" + "/x", c);
  }

  lemma LureHttp(c: string)
    requires IsLoweredLure(c)
    ensures Contains(c, "http://")
  {
    FoundBetween("please " + "verify your account" + " at ", "http://", "bit.ly" + "/x", c);
  }

  lemma LureShortener(c: string)
    requires IsLoweredLure(c)
    ensures Contains(c, "bit.ly")
  {
    FoundBetween("please " + "verify your account" + " at " + "http://", "bit.ly", "/x", c);
  }

  /** A character missing from every piece of the lowered lure is missing from it. */
  lemma LureLacks(c: string, ch: char)
    requires IsLoweredLure(c)
    requires ch !in "please " && ch !in "verify your account" && ch !in " at "
    requires ch !in "http://" && ch !in "bit.ly" && ch !in "/x"
    ensures ch !in c
  {
  }

  /** Letters the lowered lure lacks, each ruling out an entry. */
  lemma LureLettersAbsent(c: string)
    requires IsLoweredLure(c)
    ensures 'g' !in c && 'k' !in c && 'w' !in c && 'd' !in c && 'z' !in c && 'm' !in c
  {
    LureLacks(c, 'g');
    LureLacks(c, 'k');
    LureLacks(c, 'w');
    LureLacks(c, 'd');
    LureLacks(c, 'z');
    LureLacks(c, 'm');
  }

  /** The phrases other than "verify your account" each need a letter the lure lacks. */
  lemma LureMissesPhrases(c: string)
    requires 'g' !in c && 'k' !in c && 'w' !in c && 'd' !in c
    ensures !Contains(c, "urgent") && !Contains(c, "click here") && !Contains(c, "password expired")
    ensures !Contains(c, "update your information") && !Contains(c, "suspended")
    ensures !Contains(c, "login immediately")
  {
    MissingChar(c, "urgent", 2);
    MissingChar(c, "click here", 4);
    MissingChar(c, "password expired", 4);
    MissingChar(c, "update your information", 2);
    MissingChar(c, "suspended", 6);
    MissingChar(c, "login immediately", 2);
  }

  /** ".tk", ".zip" and the "from:" header each need a letter the lure lacks. */
  lemma LureMissesArchiveAndHeader(c: string)
    requires 'k' !in c && 'z' !in c && 'm' !in c
    ensures !Contains(c, ".tk") && !Contains(c, ".zip") && !Contains(c, "from:")
  {
    MissingChar(c, ".tk", 2);
    MissingChar(c, ".zip", 1);
    MissingChar(c, "from:", 3);
  }

  /** "https://" could only start at the lure's one 'h', where "http://" stands. */
  lemma LureMissesHttps(c: string)
    requires IsLoweredLure(c)
    ensures !Contains(c, "https://")
  {
    var head := "please " + "verify your account" + " at ";
    var link := "http://" + "bit.ly" + "/x";
    assert c == head + link;
    assert 'h' !in "please " && 'h' !in "verify your account" && 'h' !in " at ";
    assert link[..8] == "http://b";
    assert !StartsWith(link, "https://");
    assert link[1..] == "ttp://" + "bit.ly" + "/x";
    assert 's' !in "ttp://" && 's' !in "bit.ly" && 's' !in "/x";
    NotHereNorLater(link, "https://", 4);
    SkipFreePrefix(head, link, "https://");
  }

  /** The dotted patterns could only start at the lure's one '.', where ".ly" stands. */
  lemma LureMissesDotted(c: string)
    requires IsLoweredLure(c)
    ensures !Contains(c, ".ru") && !Contains(c, ".exe")
  {
    var head := "please " + "verify your account" + " at " + "http://" + "bit";
    var tld := "." + "ly" + "/x";
    assert "bit.ly" == "bit" + "." + "ly";
    assert c == head + tld;
    assert '.' !in "please " && '.' !in "verify your account" && '.' !in " at ";
    assert '.' !in "http://" && '.' !in "bit";
    assert tld[1..] == "ly" + "/x" && '.' !in "ly" && '.' !in "/x";
    assert tld[..3] == ".ly" && tld[..4] == ".ly/";
    NotHereNorLater(tld, ".ru", 0);
    NotHereNorLater(tld, ".exe", 0);
    SkipFreePrefix(head, tld, ".ru");
    SkipFreePrefix(head, tld, ".exe");
  }

  // "From: support@paypa1.com": a sender line with ".com" and the "paypa1" look-alike

  const Lookalike: string := "From:" + " support@" + "paypa1" + ".com"

  predicate IsLoweredLookalike(c: string)
  {
    c == "from:" + " support@" + "paypa1" + ".com"
  }

  lemma LookalikeLowered()
    ensures IsLoweredLookalike(Lower(Lookalike))
  {
    assert Lower("From:") == "from:";
    assert Lower(" support@") == " support@";
    assert Lower("paypa1") == "paypa1";
    assert Lower(".com") == ".com";
    LowerJoin("From:", " support@", "from:", " support@");
    LowerJoin("From:" + " support@", "paypa1", "from:" + " support@", "paypa1");
    LowerJoin("From:" + " support@" + "paypa1", ".com", "from:" + " support@" + "paypa1", ".com");
  }

  lemma LookalikeHeader(c: string)
    requires IsLoweredLookalike(c)
    ensures Contains(c, "from:")
  {
    FoundBetween("", "from:", " support@" + "paypa1" + ".com", c);
  }

  lemma LookalikeName(c: string)
    requires IsLoweredLookalike(c)
    ensures Contains(c, "paypa1")
  {
    FoundBetween("from:" + " support@", "paypa1", ".com", c);
  }

  lemma LookalikeDomain(c: string)
    requires IsLoweredLookalike(c)
    ensures Contains(c, ".com")
  {
    FoundBetween("from:" + " support@" + "paypa1", ".com", "", c);
  }

  /** A character missing from every piece of the lowered sender line is missing from it. */
  lemma LookalikeLacks(c: string, ch: char)
    requires IsLoweredLookalike(c)
    requires ch !in "from:" && ch !in " support@" && ch !in "paypa1" && ch !in ".com"
    ensures ch !in c
  {
  }

  /** Letters the lowered sender line lacks, each ruling out a phrase. */
  lemma LookalikeLacksPhraseLetters(c: string)
    requires IsLoweredLookalike(c)
    ensures 'v' !in c && 'g' !in c && 'k' !in c && 'w' !in c && 'd' !in c
  {
    LookalikeLacks(c, 'v');
    LookalikeLacks(c, 'g');
    LookalikeLacks(c, 'k');
    LookalikeLacks(c, 'w');
    LookalikeLacks(c, 'd');
  }

  /** Letters the lowered sender line lacks, each ruling out a link pattern. */
  lemma LookalikeLacksLinkLetters(c: string)
    requires IsLoweredLookalike(c)
    ensures 'h' !in c && 'b' !in c && 'k' !in c && 'z' !in c && 'x' !in c
  {
    LookalikeLacks(c, 'h');
    LookalikeLacks(c, 'b');
    LookalikeLacks(c, 'k');
    LookalikeLacks(c, 'z');
    LookalikeLacks(c, 'x');
  }

  /** No phrase occurs in a text lacking 'v', 'g', 'k', 'w' and 'd'. */
  lemma MissesEveryPhrase(c: string)
    requires 'v' !in c && 'g' !in c && 'k' !in c && 'w' !in c && 'd' !in c
    ensures !Contains(c, "verify your account") && !Contains(c, "urgent") && !Contains(c, "click here")
    ensures !Contains(c, "password expired") && !Contains(c, "update your information")
    ensures !Contains(c, "suspended") && !Contains(c, "login immediately")
  {
    MissingChar(c, "verify your account", 0);
    MissingChar(c, "urgent", 2);
    MissingChar(c, "click here", 4);
    MissingChar(c, "password expired", 4);
    MissingChar(c, "update your information", 2);
    MissingChar(c, "suspended", 6);
    MissingChar(c, "login immediately", 2);
  }

  /** Every link pattern but ".ru" needs a letter the text lacks. */
  lemma MissesLettered(c: string)
    requires 'h' !in c && 'b' !in c && 'k' !in c && 'z' !in c && 'x' !in c
    ensures !Contains(c, "http://") && !Contains(c, "https://") && !Contains(c, "bit.ly")
    ensures !Contains(c, ".tk") && !Contains(c, ".zip") && !Contains(c, ".exe")
  {
    MissingChar(c, "http://", 0);
    MissingChar(c, "https://", 0);
    MissingChar(c, "bit.ly", 0);
    MissingChar(c, ".tk", 2);
    MissingChar(c, ".zip", 1);
    MissingChar(c, ".exe", 2);
  }

  /** ".ru" could only start at the sender line's one '.', where ".com" stands. */
  lemma LookalikeMissesRu(c: string)
    requires IsLoweredLookalike(c)
    ensures !Contains(c, ".ru")
  {
    var head := "from:" + " support@" + "paypa1";
    assert c == head + ".com";
    assert '.' !in "from:" && '.' !in " support@" && '.' !in "paypa1";
    assert ".com"[1..] == "com" && '.' !in "com";
    assert ".com"[..3] == ".co";
    NotHereNorLater(".com", ".ru", 0);
    SkipFreePrefix(head, ".com", ".ru");
  }
}

module ScannerExamples {
  import opened Text
  import opened Scanner
  import opened ScannerProperties
  import opened ExampleTexts

  lemma {:induction false} OnlyFirstMatched(c: string, t: seq<string>)
    requires |t| >= 1 && Contains(c, t[0]) && Matched(c, t[1..]) == []
    ensures Matched(c, t) == [t[0]]
  {
  }

  lemma {:induction false} FirstAndThirdMatched(c: string, t: seq<string>)
    requires |t| >= 3 && Contains(c, t[0]) && !Contains(c, t[1]) && Contains(c, t[2])
    requires Matched(c, t[3..]) == []
    ensures Matched(c, t) == [t[0], t[2]]
  {
    assert t[1..][1..] == t[2..] && t[2..][1..] == t[3..];
    assert Matched(c, t[2..]) == [t[2]];
  }

  lemma LurePhraseMatches(c: string)
    requires Contains(c, "verify your account")
    requires !Contains(c, "urgent") && !Contains(c, "click here") && !Contains(c, "password expired")
    requires !Contains(c, "update your information") && !Contains(c, "suspended")
    requires !Contains(c, "login immediately")
    ensures Matched(c, Keywords) == ["verify your account"]
  {
    var rest := Keywords[1..];
    assert rest == ["urgent", "click here", "password expired", "update your information", "suspended", "login immediately"];
    NoneOccurNoneMatched(c, rest);
    OnlyFirstMatched(c, Keywords);
  }

  lemma LureLinkMatches(c: string)
    requires Contains(c, "http://") && Contains(c, "bit.ly")
    requires !Contains(c, "https://") && !Contains(c, ".ru") && !Contains(c, ".exe")
    requires !Contains(c, ".tk") && !Contains(c, ".zip")
    ensures Matched(c, LinkPatterns) == ["http://", "bit.ly"]
  {
    var rest := LinkPatterns[3..];
    assert rest == [".ru", ".tk", ".zip", ".exe"];
    NoneOccurNoneMatched(c, rest);
    FirstAndThirdMatched(c, LinkPatterns);
  }

  /** What the lowered lure text contains, rule by rule. */
  lemma LureFacts(c: string)
    requires IsLoweredLure(c)
    ensures Matched(c, Keywords) == ["verify your account"]
    ensures Matched(c, LinkPatterns) == ["http://", "bit.ly"]
    ensures !SenderRule(c)
  {
    LurePhrase(c);
    LureHttp(c);
    LureShortener(c);
    LureLettersAbsent(c);
    LureMissesPhrases(c);
    LureMissesArchiveAndHeader(c);
    LureMissesHttps(c);
    LureMissesDotted(c);
    LurePhraseMatches(c);
    LureLinkMatches(c);
  }

  /** A text that fires one phrase, two link patterns and not the sender rule
      scores 6, is MEDIUM, and lists the three lines in rule order. */
  lemma OnePhraseTwoLinks(text: string, phrase: string, link1: string, link2: string)
    requires text != []
    requires Matched(Lower(text), Keywords) == [phrase]
    requires Matched(Lower(text), LinkPatterns) == [link1, link2]
    requires !SenderRule(Lower(text))
    ensures Scan(text) == Report(6, [Reason(PhrasePrefix, phrase), Reason(LinkPrefix, link1), Reason(LinkPrefix, link2)], Medium)
  {
    ScoreFormula(text);
    ReasonsInRuleOrder(text);
  }

  /** "Please verify your account at http://bit.ly/x" scores 2 + 2 + 2 = 6,
      is MEDIUM, and lists the phrase, then "http://", then "bit.ly". */
  lemma ShortLinkLure()
    ensures Scan(Lure) == Report(6, [
      Reason(PhrasePrefix, "verify your account"), Reason(LinkPrefix, "http://"), Reason(LinkPrefix, "bit.ly")
    ], Medium)
  {
    LureLowered();
    LureFacts(Lower(Lure));
    OnePhraseTwoLinks(Lure, "verify your account", "http://", "bit.ly");
  }

  /** "URGENT" and "urgent" get the same outcome. */
  lemma UrgentIgnoresCase()
    ensures Scan("URGENT") == Scan("urgent")
  {
    assert Lower("URGENT") == Lower("urgent");
    CaseInsensitive("URGENT", "urgent");
  }

  /** No phrase is matched in a text where none occurs. */
  lemma NoPhraseMatched(c: string)
    requires !Contains(c, "verify your account") && !Contains(c, "urgent") && !Contains(c, "click here")
    requires !Contains(c, "password expired") && !Contains(c, "update your information")
    requires !Contains(c, "suspended") && !Contains(c, "login immediately")
    ensures Matched(c, Keywords) == []
  {
    NoneOccurNoneMatched(c, Keywords);
  }

  /** No link pattern is matched in a text where none occurs. */
  lemma NoLinkMatched(c: string)
    requires !Contains(c, "http://") && !Contains(c, "https://") && !Contains(c, "bit.ly")
    requires !Contains(c, ".ru") && !Contains(c, ".tk") && !Contains(c, ".zip") && !Contains(c, ".exe")
    ensures Matched(c, LinkPatterns) == []
  {
    NoneOccurNoneMatched(c, LinkPatterns);
  }

  /** A text that fires the sender rule and no table entry scores 3, is LOW,
      and carries the sender line alone. */
  lemma SenderOnly(text: string)
    requires text != []
    requires Matched(Lower(text), Keywords) == [] && Matched(Lower(text), LinkPatterns) == []
    requires SenderRule(Lower(text))
    ensures Scan(text) == Report(3, [SenderReason], Low)
  {
    ScoreFormula(text);
    ReasonsInRuleOrder(text);
  }

  /** "From: support@paypa1.com" trips the sender rule through the look-alike,
      although the text does contain ".com", and fires nothing else. */
  lemma LookalikeSender()
    ensures Contains(Lower(Lookalike), ".com")
    ensures Scan(Lookalike) == Report(3, [SenderReason], Low)
  {
    var c := Lower(Lookalike);
    LookalikeLowered();
    LookalikeHeader(c);
    LookalikeName(c);
    LookalikeDomain(c);
    LookalikeLacksPhraseLetters(c);
    LookalikeLacksLinkLetters(c);
    MissesEveryPhrase(c);
    MissesLettered(c);
    LookalikeMissesRu(c);
    NoPhraseMatched(c);
    NoLinkMatched(c);
    SenderOnly(Lookalike);
  }
}
