# Phishing email risk scorer

This project models the "Scan Email" action of the Phishing Email Detector
(`PhishingEmailDetectorGUI.scanEmail`). The action lowercases the email text
once and refuses an empty text. Otherwise it checks the text against two
fixed tables of suspicious substrings: 7 phrases and 7 link fragments, each
worth 2 points and one reason line. A sender rule adds 3 points and one line
when the text has `from:` and either lacks `.com` or has the look-alike
`paypa1`. The score is then banded into a LOW, MEDIUM or HIGH tier.

- `text.dfy` (module `Text`): the substring test behind `String.contains` and
  an ASCII model of `String.toLowerCase`.
- `scanner.dfy` (module `Scanner`): the tables, the reason lines, the
  specification function `Scan` and the loop-based scorer `ScanEmail`. The
  scorer keeps the source's two `for` loops over the tables, its running score
  and its list of reason lines. It is proved equal to `Scan` on every input.
- `scanner_properties.dfy` (module `ScannerProperties`): what the scorer
  promises, stated against `Matched`. `Matched` is a reference definition
  that lists the table entries occurring in the text, built from the front
  and independent of how `Scan` walks the tables.
- `scanner_examples.dfy` (modules `ExampleTexts`, `ScannerExamples`): worked
  inputs derived from the general lemmas.

The text area and the result pane become the parameter and the result of
`ScanEmail`. The result is an `Outcome`: either the refusal message, or the
score, the reason lines in the order they were appended, and the tier.
`ReasonsBlock` gives the "Reasons:" part of the displayed message.

## Model

| member | source | states |
|---|---|---|
| Scanner.ScanEmail | PhishingEmailDetectorGUI.java:85-133 | the loop-based scan (lowercase, refuse if empty, walk both tables, apply the sender rule, band) returns exactly `Scan(text)` for every text |
| Scanner.Scan | PhishingEmailDetectorGUI.java:86-91 | the scan refuses exactly when the text is empty, with the message "Please paste or load an email before scanning.", and otherwise reports the tier that bands its own score |
| Scanner.TierOf | PhishingEmailDetectorGUI.java:118-127 | HIGH exactly for scores of 8 or more, MEDIUM exactly for 4 to 7, LOW exactly below 4 |
| Text.ContainsIffOccurs | PhishingEmailDetectorGUI.java:97 | `Text.Contains`, the model of `String.contains` used at lines 97, 104 and 110, succeeds exactly when the entry occurs at some position of the text |
| Text.LowerChar | PhishingEmailDetectorGUI.java:86 | lowercasing maps an ASCII capital to its small letter (code + 32), leaves every other character alone and never yields a capital |
| Text.Lower | PhishingEmailDetectorGUI.java:86 | lowercasing keeps the length and lowercases character by character |
| Text.LowerFixesLowercase | PhishingEmailDetectorGUI.java:86 | lowercasing yields a lowercase text and changes a text exactly when it has a capital letter |
| Text.ContainsLowerIff | PhishingEmailDetectorGUI.java:86-97 | searching the lowercased text for a lowercase entry succeeds exactly when the entry occurs in the original text in any mixture of case |
| ScannerProperties.Matched | PhishingEmailDetectorGUI.java:13-20 | reference definition: an entry is listed exactly when it is in the table and occurs in the text, and the list is no longer than the table |
| ScannerProperties.MatchedIsSubmultiset | PhishingEmailDetectorGUI.java:96-108 | no entry is listed more often than the table holds it |
| ScannerProperties.MatchedCountsFound | PhishingEmailDetectorGUI.java:96-108 | in a table without repeats, the number of matches is the number of distinct entries that occur in the text |
| ScannerProperties.TablesAreDistinct | PhishingEmailDetectorGUI.java:13-20 | neither the phrase table nor the link table repeats an entry |
| ScannerProperties.TableAgreesWithMatched | PhishingEmailDetectorGUI.java:96-108 | the table walk `Scanner.TableScore` (the `+= 2` at lines 98 and 105) earns 2 points per matched entry, and `Scanner.TableReasons` appends one `Scanner.Reason` line (lines 99 and 106) per matched entry, in table order |
| ScannerProperties.MatchedDependsOnlyOnOccurrence | PhishingEmailDetectorGUI.java:96-108 | two texts in which the same table entries occur get the same matches |
| ScannerProperties.ScoreFormula | PhishingEmailDetectorGUI.java:93-113 | the score is 2 per phrase found plus 2 per link pattern found plus 3 if the sender rule fires |
| ScannerProperties.ScoreCountsFound | PhishingEmailDetectorGUI.java:93-113 | the score is 2 per distinct phrase that occurs plus 2 per distinct link pattern that occurs plus 3 if the sender rule fires |
| ScannerProperties.ScoreBounds | PhishingEmailDetectorGUI.java:13-20 | every score of a scanned text lies between 0 and 31 |
| ScannerProperties.ReasonsInRuleOrder | PhishingEmailDetectorGUI.java:94-113 | the reason lines are the found phrases in table order, then the found link patterns in table order, then the sender line if the rule fired |
| ScannerProperties.OneReasonPerRule | PhishingEmailDetectorGUI.java:96-113 | exactly one reason line per fired rule, and the score is twice the line count plus one when the sender rule fired |
| ScannerProperties.SenderRuleIff | PhishingEmailDetectorGUI.java:110-113 | the sender line is reported exactly when the text has "from:" and either lacks ".com" or has "paypa1", the condition `Scanner.SenderRule` models from line 110 |
| ScannerProperties.OddScoreIffSender | PhishingEmailDetectorGUI.java:98-111 | the score is odd exactly when the 3-point sender rule fired |
| ScannerProperties.TierMonotone | PhishingEmailDetectorGUI.java:118-127 | a higher score never gives a lower tier |
| ScannerProperties.TierBoundaries | PhishingEmailDetectorGUI.java:118-127 | 3 is LOW, 4 and 7 are MEDIUM, 8 is HIGH |
| ScannerProperties.NothingFoundIsSafe | PhishingEmailDetectorGUI.java:93-127 | a non-empty text in which no entry occurs and the sender rule does not fire scores 0, is LOW and has no reason lines |
| ScannerProperties.BlankTextIsScanned | PhishingEmailDetectorGUI.java:86-91 | a non-empty text of blanks only is not refused (there is no trimming): it scores 0, is LOW and has no reasons |
| ScannerProperties.WatchedAreLowercase | PhishingEmailDetectorGUI.java:13-20 | every table entry and every sender-rule string is already lowercase |
| ScannerProperties.EntryFiresIgnoringCase | PhishingEmailDetectorGUI.java:86-110 | any table entry or sender-rule string fires exactly when it occurs in the text in any mixture of case |
| ScannerProperties.CaseInsensitive | PhishingEmailDetectorGUI.java:86 | texts that agree once lowercased get the same outcome |
| ScannerProperties.ScanOfLowered | PhishingEmailDetectorGUI.java:86 | scanning the lowercased text gives the same outcome as scanning the text |
| ScannerProperties.DependsOnlyOnFiredRules | PhishingEmailDetectorGUI.java:93-127 | two non-empty texts that fire the same entries and the same sender verdict get the same outcome, wherever and however often the matches occur |
| ScannerProperties.ReasonLinesEndInBreak | PhishingEmailDetectorGUI.java:99-112 | every reason line ends in a line break |
| ScannerProperties.FallbackIffNoReasons | PhishingEmailDetectorGUI.java:129-130 | `Scanner.ReasonsBlock` (line 130) is "No suspicious indicators found." exactly when no rule fired, and otherwise is the reason lines joined by `Scanner.Concat`, as the string builder holds them |
| ScannerExamples.OnePhraseTwoLinks | PhishingEmailDetectorGUI.java:93-127 | a text that fires one phrase, two link patterns and not the sender rule scores 6, is MEDIUM and lists the three lines in rule order |
| ScannerExamples.ShortLinkLure | PhishingEmailDetectorGUI.java:85-127 | "Please verify your account at http://bit.ly/x" scores 6, is MEDIUM and lists the phrase, then "http://", then "bit.ly" |
| ScannerExamples.UrgentIgnoresCase | PhishingEmailDetectorGUI.java:86 | "URGENT" and "urgent" get the same outcome |
| ScannerExamples.SenderOnly | PhishingEmailDetectorGUI.java:93-127 | a text that fires the sender rule and no table entry scores 3, is LOW, and has the sender line as its only reason |
| ScannerExamples.LookalikeSender | PhishingEmailDetectorGUI.java:85-127 | "From: support@paypa1.com" contains ".com", yet scores 3, is LOW, and has the sender line as its only reason |

## Left out

- The Swing window is not modelled: the frame, the buttons and their listeners, and the layout (lines 22-62).
- Loading an email from a file (`loadFromFile`, lines 64-83) is file I/O. The model takes the text area's contents as the parameter of `ScanEmail`.
- The result message's header is not built. That covers `"Phishing Score: "` with the integer printed in decimal, the risk label with its emoji, and the colours (lines 115-132). The model returns the score, the tier and the reason lines. `ReasonsBlock` gives the "Reasons:" block.
- `showMessage` (lines 135-139) only writes to the display, so it is not modelled.
- Text.Lower: models ASCII case mapping only; line 86 uses Java's Unicode tables under the default locale. The model misses these consequences:
  - Non-ASCII capitals are not lowered. For example, U+212A KELVIN SIGN lowers to 'k' in Java, so Java can match an entry that the model misses.
  - Under a Turkish or Azerbaijani default locale, Java lowers ASCII 'I' to a dotless i (U+0131). Then "CLICK HERE" lowers to "clıck here" and does not match "click here", while the model reports a match. The same holds for the other entries with an 'i': "verify your account", "password expired", "update your information", "login immediately", "bit.ly" and ".zip".
  - U+0130 (capital I with dot above) lowers to two characters in Java, so Java's lowercasing does not always keep the length, which `Lower` promises.
  - `EntryFiresIgnoringCase`, `CaseInsensitive`, `ScanOfLowered` and `UrgentIgnoresCase` therefore describe the program only under a default locale that lowers A-Z to a-z.
- Scanner.Scan: the score is an unbounded integer. Java's `int` cannot overflow here because the score is at most 31 (`ScoreBounds`).
