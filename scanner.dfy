/** The phishing risk scorer of the detector's "Scan Email" action: the email
    text is lowercased once, matched against two fixed tables of suspicious
    substrings and one sender rule, and the resulting score is banded into a
    risk tier.  `Scan` is the specification; `ScanEmail` is the loop-based
    scorer, proved to compute it. */
module Scanner {
  import opened Text

  /** The three risk bands shown to the user. */
  datatype Tier = Low | Medium | High

  /** What one press of "Scan Email" produces: a refusal with the message
      shown for an empty text area, or the score, the reason lines in the
      order they were appended, and the tier. */
  datatype Outcome =
    | Refused(message: string)
    | Report(score: int, reasons: seq<string>, tier: Tier)

  /** Suspicious phrases, in the order they are checked. */
  const Keywords: seq<string> := [
    "verify your account", "urgent", "click here", "password expired",
    "update your information", "suspended", "login immediately"
  ]

  /** Suspicious link fragments, in the order they are checked. */
  const LinkPatterns: seq<string> := [
    "http://", "https://", "bit.ly", ".ru", ".tk", ".zip", ".exe"
  ]

  const RefusalMessage: string := "Please paste or load an email before scanning."
  const PhrasePrefix: string := "- Suspicious phrase found: \""
  const LinkPrefix: string := "- Suspicious link pattern found: \""
  const SenderReason: string := "- Suspicious sender address detected.\n"
  const NoIndicators: string := "No suspicious indicators found."

  /** Points a matched table entry adds, and points the sender rule adds. */
  const EntryPoints: int := 2
  const SenderPoints: int := 3

  /** The reason line appended for a matched table entry. */
  function Reason(prefix: string, entry: string): string
  {
    prefix + entry + "\"\n"
  }

  /** Points earned by the entries of `table` found in `content`; defined
      entry by entry from the front, as the scorer's loop walks the table. */
  function TableScore(content: string, table: seq<string>): int
  {
    if table == [] then 0
    else
      TableScore(content, table[..|table| - 1])
      + (if Contains(content, table[|table| - 1]) then EntryPoints else 0)
  }

  /** Reason lines appended for the entries of `table` found in `content`. */
  function TableReasons(content: string, table: seq<string>, prefix: string): seq<string>
  {
    if table == [] then []
    else
      TableReasons(content, table[..|table| - 1], prefix)
      + (if Contains(content, table[|table| - 1]) then [Reason(prefix, table[|table| - 1])] else [])
  }

  /** The sender rule: a "from:" header together with either no ".com"
      anywhere or the "paypa1" look-alike anywhere. */
  predicate SenderRule(content: string)
  {
    Contains(content, "from:") && (!Contains(content, ".com") || Contains(content, "paypa1"))
  }

  /** Order of the tiers, lowest risk first. */
  function Rank(t: Tier): nat
  {
    match t
    case Low => 0
    case Medium => 1
    case High => 2
  }

  /** Bands a score: 8 and above is HIGH, 4 to 7 is MEDIUM, below 4 is LOW. */
  function TierOf(score: int): (t: Tier)
    ensures t == High <==> 8 <= score
    ensures t == Medium <==> 4 <= score < 8
    ensures t == Low <==> score < 4
  {
    if score >= 8 then High else if score >= 4 then Medium else Low
  }

  /** The scan, as a function of the text area's contents. */
  function Scan(text: string): (o: Outcome)
    ensures o.Refused? <==> text == []
    ensures o.Refused? ==> o.message == RefusalMessage
    ensures o.Report? ==> o.tier == TierOf(o.score)
  {
    var content := Lower(text);
    if content == [] then Refused(RefusalMessage)
    else
      var score :=
        TableScore(content, Keywords) + TableScore(content, LinkPatterns)
        + (if SenderRule(content) then SenderPoints else 0);
      var reasons :=
        TableReasons(content, Keywords, PhrasePrefix) + TableReasons(content, LinkPatterns, LinkPrefix)
        + (if SenderRule(content) then [SenderReason] else []);
      Report(score, reasons, TierOf(score))
  }

  /** The reason lines joined into one block, as the string builder holds them. */
  function Concat(lines: seq<string>): string
  {
    if lines == [] then "" else Concat(lines[..|lines| - 1]) + lines[|lines| - 1]
  }

  /** The "Reasons:" block of the report: the reason lines, or the fallback
      text when none was appended. */
  function ReasonsBlock(reasons: seq<string>): string
  {
    var text := Concat(reasons);
    if |text| > 0 then text else NoIndicators
  }

  /** The scorer: lowercase once, refuse an empty text, walk the phrase table
      and the link table adding points and reason lines, apply the sender
      rule, then band the score. */
  method ScanEmail(text: string) returns (o: Outcome)
    ensures o == Scan(text)
  {
    var content := Lower(text);
    if |content| == 0 {
      return Refused(RefusalMessage);
    }

    var score := 0;
    var reasons: seq<string> := [];

    for i := 0 to |Keywords|
      invariant score == TableScore(content, Keywords[..i])
      invariant reasons == TableReasons(content, Keywords[..i], PhrasePrefix)
    {
      assert Keywords[..i + 1][..i] == Keywords[..i];
      if Contains(content, Keywords[i]) {
        score := score + EntryPoints;
        reasons := reasons + [Reason(PhrasePrefix, Keywords[i])];
      }
    }
    assert Keywords[..|Keywords|] == Keywords;

    for i := 0 to |LinkPatterns|
      invariant score == TableScore(content, Keywords) + TableScore(content, LinkPatterns[..i])
      invariant reasons == TableReasons(content, Keywords, PhrasePrefix)
                           + TableReasons(content, LinkPatterns[..i], LinkPrefix)
    {
      assert LinkPatterns[..i + 1][..i] == LinkPatterns[..i];
      if Contains(content, LinkPatterns[i]) {
        score := score + EntryPoints;
        reasons := reasons + [Reason(LinkPrefix, LinkPatterns[i])];
      }
    }
    assert LinkPatterns[..|LinkPatterns|] == LinkPatterns;

    if Contains(content, "from:") && (!Contains(content, ".com") || Contains(content, "paypa1")) {
      score := score + SenderPoints;
      reasons := reasons + [SenderReason];
    }

    var tier: Tier;
    if score >= 8 {
      tier := High;
    } else if score >= 4 {
      tier := Medium;
    } else {
      tier := Low;
    }

    o := Report(score, reasons, tier);
  }
}
