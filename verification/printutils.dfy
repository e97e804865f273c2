/** The text logic of utils/print.py `TournamentPrintUtils`: cleaning a
    round title for print and deriving the "After/During Round N" line. The
    widgets the title is read from are left out: the title text and the
    current round index are parameters. */
module PrintUtils {
  import opened Wrappers
  import opened Text

  /** `get_clean_print_title`. */
  function CleanPrintTitle(title: string): (r: string)
    ensures title == "" ==> r == ""
  {
    if title == "" then ""
    else ReplaceAll(ReplaceAll(title, " Pairings & Results", " Pairings"), " (Re-entry)", "")
  }

  /** A title holding neither decoration is printed as it is. */
  lemma CleanTitleUnchanged(title: string)
    requires !Contains(title, " Pairings & Results") && !Contains(title, " (Re-entry)")
    ensures CleanPrintTitle(title) == title
  {
    if title != "" {
      ReplaceAbsent(title, " Pairings & Results", " Pairings");
      ReplaceAbsent(title, " (Re-entry)", "");
    }
  }

  /** The run of digits `s` starts with. */
  function LeadingDigits(s: string): (r: string)
    ensures r <= s
    ensures forall k :: 0 <= k < |r| ==> IsDigit(r[k])
    ensures |r| < |s| ==> !IsDigit(s[|r|])
  {
    if s == [] || !IsDigit(s[0]) then [] else [s[0]] + LeadingDigits(s[1..])
  }

  /** `re.search(r"Round (\d+)", s)`: the number after the leftmost
      "Round " that a digit follows (ASCII digits). */
  function FirstRoundNumber(s: string): (r: Option<nat>)
    decreases |s|
  {
    if |s| < 7 then None
    else if s[..6] == "Round " && IsDigit(s[6]) then Some(DigitsValue(LeadingDigits(s[6..])))
    else FirstRoundNumber(s[1..])
  }

  /** The number found lies after a "Round " that occurs in the text. */
  lemma {:induction false} FirstRoundNumberOccurs(s: string)
    requires FirstRoundNumber(s).Some?
    ensures Contains(s, "Round ")
  {
    if !(s[..6] == "Round " && IsDigit(s[6])) {
      FirstRoundNumberOccurs(s[1..]);
    }
  }

  /** `get_round_info`: `completed` is the tab's current round index when it
      has one. */
  function RoundInfo(title: string, completed: Option<int>): (r: string)
    ensures title == "" || title == "No Tournament Loaded" ==> r == ""
    ensures FirstRoundNumber(title).None? ==> r == ""
    ensures (title != "" && title != "No Tournament Loaded" && FirstRoundNumber(title).Some?) ==>
              var n := FirstRoundNumber(title).value;
              r == (if Contains(title, "Results") && completed.Some? && n > completed.value
                    then "During Round " else "After Round ") + NatToString(n)
  {
    if title == "" || title == "No Tournament Loaded" then ""
    else if !Contains(title, "Round") then
      NoRoundNoNumber(title);
      ""
    else
      match FirstRoundNumber(title)
      case None => ""
      case Some(n) =>
        if Contains(title, "Results") && completed.Some? then
          if n <= completed.value then "After Round " + NatToString(n) else "During Round " + NatToString(n)
        else "After Round " + NatToString(n)
  }

  /** Without "Round" in the text no round number is found. */
  lemma NoRoundNoNumber(s: string)
    ensures !Contains(s, "Round") ==> FirstRoundNumber(s).None?
  {
    if FirstRoundNumber(s).Some? {
      FirstRoundNumberOccurs(s);
      ContainsShorter(s, "Round ");
    }
  }

  /** Containing "Round " means containing "Round". */
  lemma {:induction false} ContainsShorter(s: string, pat: string)
    requires |pat| > 0 && Contains(s, pat)
    ensures Contains(s, pat[..|pat| - 1])
  {
    if s[..|pat|] != pat {
      ContainsShorter(s[1..], pat);
    } else {
      assert s[..|pat| - 1] == pat[..|pat| - 1];
    }
  }

  /** A title that opens with "Round N" and no more digits reports round N. */
  lemma {:induction false} RoundInfoOfHeading(n: nat, rest: string, completed: Option<int>)
    requires rest == [] || !IsDigit(rest[0])
    requires !Contains("Round " + NatToString(n) + rest, "Results")
    ensures RoundInfo("Round " + NatToString(n) + rest, completed) == "After Round " + NatToString(n)
  {
    var t := "Round " + NatToString(n) + rest;
    HeadingNumber(n, rest);
    assert t[0] == 'R';
  }

  lemma HeadingNumber(n: nat, rest: string)
    requires rest == [] || !IsDigit(rest[0])
    ensures FirstRoundNumber("Round " + NatToString(n) + rest) == Some(n)
  {
    var d := NatToString(n);
    var t := "Round " + d + rest;
    assert t[..6] == "Round ";
    assert t[6..] == d + rest;
    LeadingDigitsOf(d, rest);
    NatToStringValue(n);
  }

  lemma {:induction false} LeadingDigitsOf(d: string, rest: string)
    requires forall k :: 0 <= k < |d| ==> IsDigit(d[k])
    requires rest == [] || !IsDigit(rest[0])
    ensures LeadingDigits(d + rest) == d
  {
    if d != [] {
      LeadingDigitsOf(d[1..], rest);
      assert (d + rest)[1..] == d[1..] + rest;
    } else {
      assert d + rest == rest;
    }
  }
}
