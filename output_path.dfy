/**
 * Where a run writes its summary: the configured template with the week number
 * and the year substituted, appended to the configured folder after a '/'.
 */
module Output {
  import opened JsString
  import opened Decimal
  import opened Settings

  const WeekPlaceholder := "%WEEK_NUMBER%"
  const YearPlaceholder := "%YEAR%"

  /**
   * `template.replace('%WEEK_NUMBER%', `${weekNumber}`).replace('%YEAR%', `${year}`)`:
   * each call replaces only the first occurrence of its placeholder.
   */
  function RenderFileName(template: string, weekNumber: nat, year: int): string {
    ReplaceFirst(ReplaceFirst(template, WeekPlaceholder, NatToString(weekNumber)),
                 YearPlaceholder, IntToString(year))
  }

  /** `${outputFolder}/${outputFileName}`: a literal '/', with no normalisation of the folder. */
  function OutputPath(outputFolder: string, fileName: string): string {
    outputFolder + "/" + fileName
  }

  /** No numeral character appears in `%YEAR%`, so substituting the week cannot create one. */
  lemma NumeralsAvoidYearPlaceholder(n: nat, i: int)
    ensures forall k :: 0 <= k < |NatToString(n)| ==> NatToString(n)[k] !in YearPlaceholder
    ensures forall k :: 0 <= k < |IntToString(i)| ==> IntToString(i)[k] !in WeekPlaceholder
  {
  }

  /** A template without placeholders is the file name as it stands. */
  lemma RenderWithoutPlaceholders(template: string, weekNumber: nat, year: int)
    requires forall j: nat :: !OccursAt(template, WeekPlaceholder, j)
    requires forall j: nat :: !OccursAt(template, YearPlaceholder, j)
    ensures RenderFileName(template, weekNumber, year) == template
  {
    ReplaceFirstAbsent(template, WeekPlaceholder, NatToString(weekNumber));
    ReplaceFirstAbsent(template, YearPlaceholder, IntToString(year));
  }

  /**
   * Without `%YEAR%`, only the first `%WEEK_NUMBER%` becomes the week's numeral;
   * later occurrences in `b` stay as they are.
   */
  lemma RenderWeekOnly(a: string, b: string, weekNumber: nat, year: int)
    requires forall j: nat :: j < |a| ==> !OccursAt(a + WeekPlaceholder + b, WeekPlaceholder, j)
    requires forall j: nat :: !OccursAt(a + WeekPlaceholder + b, YearPlaceholder, j)
    ensures RenderFileName(a + WeekPlaceholder + b, weekNumber, year) == a + NatToString(weekNumber) + b
  {
    var t, w := a + WeekPlaceholder + b, NatToString(weekNumber);
    ReplaceFirstAtFirst(a, WeekPlaceholder, b, w);
    NumeralsAvoidYearPlaceholder(weekNumber, year);
    ReplaceFirstKeepsAbsent(t, WeekPlaceholder, w, YearPlaceholder);
    ReplaceFirstAbsent(a + w + b, YearPlaceholder, IntToString(year));
  }

  /** Without `%WEEK_NUMBER%`, only the first `%YEAR%` becomes the year's numeral. */
  lemma RenderYearOnly(a: string, b: string, weekNumber: nat, year: int)
    requires forall j: nat :: !OccursAt(a + YearPlaceholder + b, WeekPlaceholder, j)
    requires forall j: nat :: j < |a| ==> !OccursAt(a + YearPlaceholder + b, YearPlaceholder, j)
    ensures RenderFileName(a + YearPlaceholder + b, weekNumber, year) == a + IntToString(year) + b
  {
    var t := a + YearPlaceholder + b;
    ReplaceFirstAbsent(t, WeekPlaceholder, NatToString(weekNumber));
    ReplaceFirstAtFirst(a, YearPlaceholder, b, IntToString(year));
  }

  /**
   * With the first `%WEEK_NUMBER%` at `|a|` and the first `%YEAR%` after it, both
   * are substituted and everything else, later placeholders included, is kept.
   */
  lemma RenderWeekThenYear(a: string, m: string, z: string, weekNumber: nat, year: int)
    requires forall j: nat :: j < |a| ==>
      !OccursAt(a + WeekPlaceholder + m + YearPlaceholder + z, WeekPlaceholder, j)
    requires forall j: nat :: j < |a| + |WeekPlaceholder| + |m| ==>
      !OccursAt(a + WeekPlaceholder + m + YearPlaceholder + z, YearPlaceholder, j)
    ensures RenderFileName(a + WeekPlaceholder + m + YearPlaceholder + z, weekNumber, year)
         == a + NatToString(weekNumber) + m + IntToString(year) + z
  {
    var b := m + YearPlaceholder + z;
    var t, w := a + WeekPlaceholder + b, NatToString(weekNumber);
    assert t == a + WeekPlaceholder + m + YearPlaceholder + z;
    ReplaceFirstAtFirst(a, WeekPlaceholder, b, w);
    var t1 := a + w + b;
    NumeralsAvoidYearPlaceholder(weekNumber, year);
    forall j: nat | j < |a + w + m| ensures !OccursAt(t1, YearPlaceholder, j) {
      WindowAcrossReplacement(a, WeekPlaceholder, w, b, YearPlaceholder, j);
    }
    assert t1 == (a + w + m) + YearPlaceholder + z;
    ReplaceFirstAtFirst(a + w + m, YearPlaceholder, z, IntToString(year));
  }

  /** Substituting a week placeholder that comes after `a + %YEAR%` keeps `%YEAR%` first at `|a|`. */
  lemma YearStaysFirst(a: string, m: string, w: string, z: string)
    requires forall j: nat :: j < |a| ==>
      !OccursAt(a + YearPlaceholder + m + WeekPlaceholder + z, YearPlaceholder, j)
    ensures forall j: nat :: j < |a| ==> !OccursAt(a + YearPlaceholder + (m + w + z), YearPlaceholder, j)
  {
    var p := a + YearPlaceholder + m;
    var t, t1 := p + WeekPlaceholder + z, p + w + z;
    assert t1[..|p|] == p == t[..|p|];
    NoOccurrenceInCommonPrefix(t, t1, |p|, YearPlaceholder, |a|);
    assert t1 == a + YearPlaceholder + (m + w + z);
  }

  lemma WeekStepAfterYear(a: string, m: string, z: string, w: string)
    requires forall j: nat :: j < |a| + |YearPlaceholder| + |m| ==>
      !OccursAt(a + YearPlaceholder + m + WeekPlaceholder + z, WeekPlaceholder, j)
    ensures ReplaceFirst(a + YearPlaceholder + m + WeekPlaceholder + z, WeekPlaceholder, w)
         == a + YearPlaceholder + (m + w + z)
  {
    ReplaceFirstAtFirst(a + YearPlaceholder + m, WeekPlaceholder, z, w);
  }

  lemma YearStepBeforeWeek(a: string, m: string, z: string, w: string, y: string)
    requires forall j: nat :: j < |a| ==>
      !OccursAt(a + YearPlaceholder + m + WeekPlaceholder + z, YearPlaceholder, j)
    ensures ReplaceFirst(a + YearPlaceholder + (m + w + z), YearPlaceholder, y) == a + y + m + w + z
  {
    YearStaysFirst(a, m, w, z);
    ReplaceFirstAtFirst(a, YearPlaceholder, m + w + z, y);
  }

  /**
   * With the first `%YEAR%` at `|a|` and the first `%WEEK_NUMBER%` after it, both
   * are substituted and everything else is kept.
   */
  lemma RenderYearThenWeek(a: string, m: string, z: string, weekNumber: nat, year: int)
    requires forall j: nat :: j < |a| + |YearPlaceholder| + |m| ==>
      !OccursAt(a + YearPlaceholder + m + WeekPlaceholder + z, WeekPlaceholder, j)
    requires forall j: nat :: j < |a| ==>
      !OccursAt(a + YearPlaceholder + m + WeekPlaceholder + z, YearPlaceholder, j)
    ensures RenderFileName(a + YearPlaceholder + m + WeekPlaceholder + z, weekNumber, year)
         == a + IntToString(year) + m + NatToString(weekNumber) + z
  {
    var w, y := NatToString(weekNumber), IntToString(year);
    WeekStepAfterYear(a, m, z, w);
    YearStepBeforeWeek(a, m, z, w, y);
  }

  /** Where the placeholders sit in the default template. */
  lemma DefaultTemplateShape()
    ensures DefaultSettings.outputPathTemplate == "Summary of Week " + WeekPlaceholder + ".md"
    ensures forall j: nat :: j < |"Summary of Week "| ==>
      !OccursAt("Summary of Week " + WeekPlaceholder + ".md", WeekPlaceholder, j)
    ensures forall j: nat :: !OccursAt("Summary of Week " + WeekPlaceholder + ".md", YearPlaceholder, j)
  {
    var a, b := "Summary of Week ", ".md";
    var t := a + WeekPlaceholder + b;
    assert '%' !in a;
    FirstCharAbsent(a, WeekPlaceholder + b, WeekPlaceholder);
    assert a + (WeekPlaceholder + b) == t;
    assert 'Y' !in t;
    CharAbsent(t, YearPlaceholder, 'Y');
  }

  /** The default template renders as `Summary of Week 7.md` in week 7, whatever the year. */
  lemma DefaultFileNameExample(year: int)
    ensures RenderFileName(DefaultSettings.outputPathTemplate, 7, year) == "Summary of Week 7.md"
  {
    DefaultTemplateShape();
    RenderWeekOnly("Summary of Week ", ".md", 7, year);
    assert NatToString(7) == "7";
    DefaultNameSpelling();
  }

  /** With the default folder `/` the slash is doubled: nothing normalises the path. */
  lemma DefaultOutputPathExample(year: int)
    ensures OutputPath(DefaultSettings.outputFolder,
                       RenderFileName(DefaultSettings.outputPathTemplate, 7, year))
         == "//Summary of Week 7.md"
  {
    DefaultFileNameExample(year);
    DefaultNameSpelling();
  }

  /**
   * The spelling of the two example names, kept apart from the lemmas above so that
   * the literal concatenations are not unfolded in a context holding the template.
   */
  lemma DefaultNameSpelling()
    ensures "Summary of Week " + "7" + ".md" == "Summary of Week 7.md"
    ensures "/" + "/" + "Summary of Week 7.md" == "//Summary of Week 7.md"
  {
  }


  /** `%YEAR%` with its opening `%` replaced by a numeral no longer holds `%YEAR%`. */
  lemma NoYearInNumeralThenYear(n: string)
    requires n != [] && AllDigits(n)
    ensures forall j: nat :: !OccursAt(n + "YEAR%", YearPlaceholder, j)
  {
    var t := n + "YEAR%";
    forall j: nat | j + |YearPlaceholder| <= |t| ensures !OccursAt(t, YearPlaceholder, j) {
      assert t[j..j + |YearPlaceholder|][0] == t[j];
      assert t[j] == n[j];
    }
  }

  /**
   * Placeholders that share a `%` are not both substituted: in `%WEEK_NUMBER%YEAR%`
   * the week numeral replaces the `%` that opens `%YEAR%`, so the year never appears.
   */
  lemma RenderSharedPercentWeekFirst(weekNumber: nat, year: int)
    ensures RenderFileName("%WEEK_NUMBER%YEAR%", weekNumber, year) == NatToString(weekNumber) + "YEAR%"
  {
    var w := NatToString(weekNumber);
    assert "%WEEK_NUMBER%YEAR%" == "" + WeekPlaceholder + "YEAR%";
    ReplaceFirstAtFirst("", WeekPlaceholder, "YEAR%", w);
    assert "" + w + "YEAR%" == w + "YEAR%";
    NoYearInNumeralThenYear(w);
    ReplaceFirstAbsent(w + "YEAR%", YearPlaceholder, IntToString(year));
  }

  lemma NoWeekBeforeFive()
    ensures forall j: nat :: j < 5 ==> !OccursAt("%YEAR" + WeekPlaceholder, WeekPlaceholder, j)
  {
    var t := "%YEAR" + WeekPlaceholder;
    forall j: nat | j < 5 ensures !OccursAt(t, WeekPlaceholder, j) {
      assert t[j..j + |WeekPlaceholder|][1] == t[j + 1];
      assert t[j + 1] != 'W';
    }
  }

  /** `%YEAR%` with its closing `%` replaced by a numeral no longer holds `%YEAR%`. */
  lemma NoYearInYearThenNumeral(n: string)
    requires n != [] && AllDigits(n)
    ensures forall j: nat :: !OccursAt("%YEAR" + n, YearPlaceholder, j)
  {
    var t := "%YEAR" + n;
    forall j: nat | j + |YearPlaceholder| <= |t| ensures !OccursAt(t, YearPlaceholder, j) {
      var window := t[j..j + |YearPlaceholder|];
      if j == 0 {
        assert window[5] == n[0];
      } else if j < 5 {
        assert window[0] == t[j] == "%YEAR"[j];
      } else {
        assert window[0] == t[j] == n[j - 5];
      }
    }
  }

  /**
   * Likewise `%YEAR%WEEK_NUMBER%`: the week placeholder found first takes the
   * closing `%` of `%YEAR%`, and what is left of it no longer matches.
   */
  lemma RenderSharedPercentYearFirst(weekNumber: nat, year: int)
    ensures RenderFileName("%YEAR%WEEK_NUMBER%", weekNumber, year) == "%YEAR" + NatToString(weekNumber)
  {
    var w := NatToString(weekNumber);
    assert "%YEAR%WEEK_NUMBER%" == "%YEAR" + WeekPlaceholder + "";
    NoWeekBeforeFive();
    assert "%YEAR" + WeekPlaceholder + "" == "%YEAR" + WeekPlaceholder;
    ReplaceFirstAtFirst("%YEAR", WeekPlaceholder, "", w);
    assert "%YEAR" + w + "" == "%YEAR" + w;
    NoYearInYearThenNumeral(w);
    ReplaceFirstAbsent("%YEAR" + w, YearPlaceholder, IntToString(year));
  }
}
