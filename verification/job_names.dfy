/** The job name `run_pipeline` submits under: a caller's non-empty name
    as given, otherwise `job-` followed by the current time, lower-cased,
    with every character outside `[-a-zA-Z0-9]` replaced by `-` and the
    dashes at both ends stripped. The clock reading is a parameter. */
module JobNames {
  import opened Results
  import opened Text

  predicate IsJobNameChar(c: char) {
    c == '-' || 'a' <= c <= 'z' || 'A' <= c <= 'Z' || '0' <= c <= '9'
  }

  /** The characters a generated name can hold. */
  predicate IsLowerNameChar(c: char) {
    c == '-' || 'a' <= c <= 'z' || '0' <= c <= '9'
  }

  /** What one character of the clock reading becomes: lower-cased, then
      kept when it lies in `[-a-zA-Z0-9]` and replaced by `-` otherwise. */
  function NameChar(c: char): (n: char)
    ensures IsLowerNameChar(n)
  {
    var l := LowerChar(c);
    if IsJobNameChar(l) then l else '-'
  }

  /** `re.sub('[^-a-zA-Z0-9]', '-', s.lower())`, character by character. */
  function Sanitize(s: string): (r: string)
    ensures |r| == |s|
    ensures forall i :: 0 <= i < |r| ==> r[i] == NameChar(s[i])
  {
    seq(|s|, i requires 0 <= i < |s| => NameChar(s[i]))
  }

  /** `s.lstrip('-')`: drops the longest all-dash prefix. */
  function StripLeading(s: string): (r: string)
    ensures |r| <= |s| && r == s[|s| - |r|..]
    ensures forall k :: 0 <= k < |s| - |r| ==> s[k] == '-'
    ensures r != [] ==> r[0] != '-'
  {
    if s != [] && s[0] == '-' then StripLeading(s[1..]) else s
  }

  /** `s.rstrip('-')`: drops the longest all-dash suffix. */
  function StripTrailing(s: string): (r: string)
    ensures |r| <= |s| && r == s[..|r|]
    ensures forall k :: |r| <= k < |s| ==> s[k] == '-'
    ensures r != [] ==> r[|r| - 1] != '-'
  {
    if s != [] && s[|s| - 1] == '-' then StripTrailing(s[..|s| - 1]) else s
  }

  /** The number of dashes `s.lstrip('-')` removes. */
  function LeadingDashes(s: string): nat {
    |s| - |StripLeading(s)|
  }

  /** `s.strip('-')`: the slice of `s` that remains once the dashes at both
      ends are removed. */
  function StripDashes(s: string): (r: string)
    ensures LeadingDashes(s) + |r| <= |s|
    ensures r == s[LeadingDashes(s)..LeadingDashes(s) + |r|]
    ensures forall k :: 0 <= k < LeadingDashes(s) ==> s[k] == '-'
    ensures forall k :: LeadingDashes(s) + |r| <= k < |s| ==> s[k] == '-'
    ensures r != [] ==> r[0] != '-' && r[|r| - 1] != '-'
  {
    StripBothSlice(s);
    StripBothTail(s);
    StripBothEnds(s);
    StripTrailing(StripLeading(s))
  }

  lemma StripBothEnds(s: string)
    ensures forall k :: 0 <= k < LeadingDashes(s) ==> s[k] == '-'
    ensures var r := StripTrailing(StripLeading(s));
      r != [] ==> r[0] != '-' && r[|r| - 1] != '-'
  {
    var lead := StripLeading(s);
    var r := StripTrailing(lead);
    if r != [] {
      assert r[0] == lead[0];
    }
  }

  lemma StripBothSlice(s: string)
    ensures var r := StripTrailing(StripLeading(s));
      LeadingDashes(s) + |r| <= |s| && r == s[LeadingDashes(s)..LeadingDashes(s) + |r|]
  {
    var lead := StripLeading(s);
    var r := StripTrailing(lead);
    assert lead == s[LeadingDashes(s)..];
    assert r == lead[..|r|];
  }

  lemma StripBothTail(s: string)
    ensures var r := StripTrailing(StripLeading(s));
      forall k :: LeadingDashes(s) + |r| <= k < |s| ==> s[k] == '-'
  {
    var lead := StripLeading(s);
    var r := StripTrailing(lead);
    var i := LeadingDashes(s);
    forall k | i + |r| <= k < |s| ensures s[k] == '-' {
      assert s[k] == lead[k - i];
    }
  }

  function GeneratedJobName(now: string): string {
    StripDashes(Sanitize("job-" + now))
  }

  /** The name used: a non-empty given name unchanged, otherwise a name
      generated from the clock reading `now`. */
  function ChooseJobName(given: Option<string>, now: string): (name: string)
    ensures given.Some? && given.value != [] ==> name == given.value
    ensures given.None? || given.value == [] ==> name == GeneratedJobName(now)
  {
    if given.Some? && given.value != [] then given.value else GeneratedJobName(now)
  }

  /** A generated name is made of `[a-z0-9-]`, has no dash at either end
      and begins with `job`. */
  lemma GeneratedNameShape(now: string)
    ensures var name := GeneratedJobName(now);
      && (forall k :: 0 <= k < |name| ==> IsLowerNameChar(name[k]))
      && name != [] && name[0] != '-' && name[|name| - 1] != '-'
      && StartsWith(name, "job")
  {
    var s := Sanitize("job-" + now);
    assert s[0] == 'j' && s[1] == 'o' && s[2] == 'b';
    var name := StripDashes(s);
    var i := LeadingDashes(s);
    assert i == 0;
    assert |name| >= 3;
    assert name[..3] == "job";
  }

  /** Characters already in `[a-z0-9-]` survive sanitising. */
  lemma SanitizeKeeps(s: string)
    requires forall k :: 0 <= k < |s| ==> IsLowerNameChar(s[k])
    ensures Sanitize(s) == s
  {
    var r := Sanitize(s);
    forall k | 0 <= k < |s| ensures r[k] == s[k] {
      assert NameChar(s[k]) == s[k];
    }
  }

  lemma StripKeeps(s: string)
    requires s != [] ==> s[0] != '-' && s[|s| - 1] != '-'
    ensures StripDashes(s) == s
  {
  }

  /** A name made of `[a-z0-9-]` with no dash at either end is a fixed
      point of sanitising and stripping. */
  lemma NormalNameStable(name: string)
    requires forall k :: 0 <= k < |name| ==> IsLowerNameChar(name[k])
    requires name != [] ==> name[0] != '-' && name[|name| - 1] != '-'
    ensures StripDashes(Sanitize(name)) == name
  {
    SanitizeKeeps(name);
    StripKeeps(name);
  }

  /** Sanitising a generated name again changes nothing. */
  lemma GeneratedNameStable(now: string)
    ensures StripDashes(Sanitize(GeneratedJobName(now))) == GeneratedJobName(now)
  {
    GeneratedNameShape(now);
    NormalNameStable(GeneratedJobName(now));
  }

  /** Sanitising works character by character. */
  lemma SanitizeAppend(a: string, b: string)
    ensures Sanitize(a + b) == Sanitize(a) + Sanitize(b)
  {
    var r, ra, rb := Sanitize(a + b), Sanitize(a), Sanitize(b);
    forall k | 0 <= k < |r| ensures r[k] == (ra + rb)[k] {
      assert (a + b)[k] == if k < |a| then a[k] else b[k - |a|];
    }
  }

  lemma SanitizeDateExample()
    ensures Sanitize("job-" + "2026" + "-10-" + "10T1") == "job-" + "2026" + "-10-" + "10t1"
  {
    SanitizeAppend("job-" + "2026" + "-10-", "10T1");
    SanitizeAppend("job-" + "2026", "-10-");
    SanitizeAppend("job-", "2026");
    assert Sanitize("10T1") == "10t1" by {}
  }

  lemma SanitizeTimeExample()
    ensures Sanitize("2:34" + ":56." + "1234" + "56") == "2-34" + "-56-" + "1234" + "56"
  {
    SanitizeAppend("2:34" + ":56." + "1234", "56");
    SanitizeAppend("2:34" + ":56.", "1234");
    SanitizeAppend("2:34", ":56.");
    assert Sanitize("2:34") == "2-34" by {}
    assert Sanitize(":56.") == "-56-" by {}
  }

  /** The name generated when the clock reads 2026-10-10T12:34:56.123456,
      which is `job-2026-10-10t12-34-56-123456`. The name is written in
      four-character pieces that line up with the pieces sanitized above;
      compared as one literal it costs the verifier several times more. */
  lemma GeneratedNameExample(now: string)
    requires now == "2026-10-10T12:34:56.123456"
    ensures GeneratedJobName(now) == "job-" + "2026" + "-10-" + "10t1" + "2-34" + "-56-" + "1234" + "56"
  {
    var date, time := "job-" + "2026" + "-10-" + "10T1", "2:34" + ":56." + "1234" + "56";
    var expected := "job-" + "2026" + "-10-" + "10t1" + "2-34" + "-56-" + "1234" + "56";
    assert "job-" + now == date + time;
    assert Sanitize(date + time) == expected by {
      SanitizeAppend(date, time);
      SanitizeDateExample();
      SanitizeTimeExample();
    }
    assert StripDashes(expected) == expected by {
      assert expected[0] == 'j' && expected[|expected| - 1] == '6';
      StripKeeps(expected);
    }
  }
}
