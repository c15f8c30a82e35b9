/**
 Official result directories: an optional prefix, a scenario name, a dash and a
 normalized timestamp. Names are sequences of bytes, written as characters.
 */
module ResultDirectory {
  import opened Outcomes

  datatype DirectoryError = MissingPrefix | TooShort | BadSeparator | BadTimestamp | BadScenario

  const TIMESTAMP_LENGTH: nat := 24

  predicate IsDigit(c: char) { '0' <= c <= '9' }

  /** `2026-07-28T01-02-03-004Z`, digits for digits. */
  predicate IsNormalizedTimestamp(value: string): (r: bool)
    ensures r ==> |value| == TIMESTAMP_LENGTH
  {
    && |value| == TIMESTAMP_LENGTH
    && value[4] == '-' && value[7] == '-' && value[10] == 'T' && value[13] == '-'
    && value[16] == '-' && value[19] == '-' && value[23] == 'Z'
    && forall i :: 0 <= i < 24 && i != 4 && i != 7 && i != 10 && i != 13 && i != 16 && i != 19 && i != 23 ==>
         IsDigit(value[i])
  }

  predicate IsPunctuation(c: char) { c == '-' || c == '_' || c == '.' || c == '/' }

  predicate IsScenarioCharacter(c: char) {
    IsDigit(c) || 'a' <= c <= 'z' || 'A' <= c <= 'Z' || IsPunctuation(c)
  }

  predicate ContainsTwice(text: string, c: char) {
    exists i :: 0 <= i < |text| - 1 && text[i] == c && text[i + 1] == c
  }

  predicate IsScenarioName(name: string): (r: bool)
    ensures r ==> name != ""
  {
    && name != "" && !ContainsTwice(name, '.')
    && !IsPunctuation(name[0]) && !IsPunctuation(name[|name| - 1]) && !ContainsTwice(name, '/')
    && forall i :: 0 <= i < |name| ==> IsScenarioCharacter(name[i])
  }

  /** Splits a name off its timestamp. */
  function SplitTimestamp(rest: string): Result<string, DirectoryError> {
    if |rest| <= TIMESTAMP_LENGTH + 1 then Err(TooShort)
    else
      var split := |rest| - (TIMESTAMP_LENGTH + 1);
      if rest[split] != '-' then Err(BadSeparator)
      else if !IsNormalizedTimestamp(rest[split + 1..]) then Err(BadTimestamp)
      else if !IsScenarioName(rest[..split]) then Err(BadScenario)
      else Ok(rest[..split])
  }

  function PrefixText(prefix: Option<string>): string {
    if prefix.Some? then prefix.value else ""
  }

  /** The scenario a result directory belongs to; client results carry no prefix. */
  function ScenarioOf(directory: string, prefix: Option<string>): Result<string, DirectoryError> {
    if prefix.Some? && !(prefix.value <= directory) then Err(MissingPrefix)
    else SplitTimestamp(directory[|PrefixText(prefix)|..])
  }

  /** The directory the official runner makes for a scenario. */
  function DirectoryOf(prefix: Option<string>, scenario: string, timestamp: string): string {
    PrefixText(prefix) + (scenario + "-" + timestamp)
  }

  lemma SplitReadsBack(scenario: string, timestamp: string)
    requires IsScenarioName(scenario) && IsNormalizedTimestamp(timestamp)
    ensures SplitTimestamp(scenario + "-" + timestamp) == Ok(scenario)
  {
    hide IsScenarioName, IsNormalizedTimestamp;
    var rest, split := scenario + "-" + timestamp, |scenario|;
    assert rest[..split] == scenario && rest[split + 1..] == timestamp && rest[split] == '-';
  }

  lemma SplitIsUnique(rest: string)
    requires SplitTimestamp(rest).Ok?
    ensures var s, t := SplitTimestamp(rest).value, rest[|rest| - TIMESTAMP_LENGTH..];
            IsScenarioName(s) && IsNormalizedTimestamp(t) && rest == s + "-" + t
  {
    hide IsScenarioName, IsNormalizedTimestamp;
    var split := |rest| - (TIMESTAMP_LENGTH + 1);
    assert rest == rest[..split] + [rest[split]] + rest[split + 1..];
  }

  /** Every directory the runner makes is read back as its scenario. */
  lemma ScenarioReadsBack(prefix: Option<string>, scenario: string, timestamp: string)
    requires IsScenarioName(scenario) && IsNormalizedTimestamp(timestamp)
    ensures ScenarioOf(DirectoryOf(prefix, scenario, timestamp), prefix) == Ok(scenario)
  {
    SplitReadsBack(scenario, timestamp);
    hide SplitTimestamp, IsScenarioName, IsNormalizedTimestamp;
    assert DirectoryOf(prefix, scenario, timestamp)[|PrefixText(prefix)|..] == scenario + "-" + timestamp;
  }

  lemma {:induction false} DirectorySplitsBack(prefix: Option<string>, s: string, t: string, directory: string)
    requires IsScenarioName(s) && IsNormalizedTimestamp(t) && directory == DirectoryOf(prefix, s, t)
    ensures ScenarioOf(directory, prefix) == Ok(s) && |directory| >= TIMESTAMP_LENGTH
    ensures t == directory[|directory| - TIMESTAMP_LENGTH..]
  {
    ScenarioReadsBack(prefix, s, t);
    hide IsScenarioName, IsNormalizedTimestamp, ScenarioOf;
    assert directory == (PrefixText(prefix) + s + "-") + t;
  }

  /** Every accepted directory is made from exactly one scenario and timestamp. */
  lemma AcceptedSplitsOneWay(directory: string, prefix: Option<string>) returns (timestamp: string)
    requires ScenarioOf(directory, prefix).Ok?
    ensures IsScenarioName(ScenarioOf(directory, prefix).value) && IsNormalizedTimestamp(timestamp)
    ensures directory == DirectoryOf(prefix, ScenarioOf(directory, prefix).value, timestamp)
    ensures forall s, t :: IsScenarioName(s) && IsNormalizedTimestamp(t) && directory == DirectoryOf(prefix, s, t) ==>
              s == ScenarioOf(directory, prefix).value && t == timestamp
  {
    var rest := directory[|PrefixText(prefix)|..];
    SplitIsUnique(rest);
    timestamp := rest[|rest| - TIMESTAMP_LENGTH..];
    assert directory == PrefixText(prefix) + rest;
    hide IsScenarioName, IsNormalizedTimestamp, SplitTimestamp, DirectoryOf;
    assert timestamp == directory[|directory| - TIMESTAMP_LENGTH..];
    forall s, t | IsScenarioName(s) && IsNormalizedTimestamp(t) && directory == DirectoryOf(prefix, s, t)
      ensures s == ScenarioOf(directory, prefix).value && t == timestamp
    {
      DirectorySplitsBack(prefix, s, t, directory);
    }
  }
}
