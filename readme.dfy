/**
 * The README patch of `update_readme_timestamp` in
 * scripts/monitor_transfer_count.py, on the list of lines the README splits
 * into. The section under `### 資料視覺化- 全台建物買賣移轉棟數` loses every
 * old `Update time: ... CST` line, gains one new one (in front of the chart
 * image, or, without an image, in front of the `監控內容：` line or the
 * trailing blank lines, together with the image), and has its runs of blank
 * lines collapsed to one. Everything outside the section is left alone.
 */
module Readme {
  import opened Wrappers
  import opened Text

  const SectionHeader := "### 資料視覺化- 全台建物買賣移轉棟數"
  const ImagePrefix := "![全台建物買賣移轉棟數]"
  const ImageTarget := "(data/svg/taiwan_building_transfer_count.svg)"
  const ImageLine := ImagePrefix + ImageTarget
  const Marker := "監控內容："
  const SubsectionPrefix := "### "

  // ---------------------------------------------------------------------------
  // Line tests

  /** `s` has the shape of `t`, where `#` in `t` stands for one decimal digit. */
  predicate FitsTemplate(s: string, t: string) {
    |s| == |t| && forall i :: 0 <= i < |s| ==> if t[i] == '#' then IsDigit(s[i]) else s[i] == t[i]
  }

  const StampTemplate := "Update time: ####-##-## ##:##:## CST"

  /** The line tests of the patch: on the stripped line or on the line as it is. */
  datatype LineTest =
    | StrippedIs(text: string)
    | StrippedStartsWith(text: string)
    | LineStartsWith(text: string)
    | StrippedFits(template: string)

  predicate Test(t: LineTest, line: string) {
    match t
    case StrippedIs(x) => Strip(line) == x
    case StrippedStartsWith(x) => StartsWith(Strip(line), x)
    case LineStartsWith(x) => StartsWith(line, x)
    case StrippedFits(x) => FitsTemplate(Strip(line), x)
  }

  const Header := StrippedIs(SectionHeader)
  const Subsection := LineStartsWith(SubsectionPrefix)
  const Image := StrippedStartsWith(ImagePrefix)
  const MarkerLine := StrippedIs(Marker)
  /** `re.match(r"^Update time: \d{4}-\d{2}-\d{2} \d{2}:\d{2}:\d{2} CST$", line.strip())`. */
  const StampLine := StrippedFits(StampTemplate)

  predicate IsStampLine(line: string) {
    Test(StampLine, line)
  }

  /** The first index at or after `from` whose line passes `t`, or `|s|` when there is none. */
  function FirstWhere(s: seq<string>, t: LineTest, from: nat): (k: nat)
    requires from <= |s|
    ensures from <= k <= |s|
    ensures k < |s| ==> Test(t, s[k])
    ensures forall j {:trigger Test(t, s[j])} :: from <= j < k ==> !Test(t, s[j])
    decreases |s| - from
  {
    if from == |s| || Test(t, s[from]) then from else FirstWhere(s, t, from + 1)
  }

  /** Any index with the three properties of `FirstWhere` is the one it returns. */
  lemma {:induction false} FirstWhereUnique(s: seq<string>, t: LineTest, from: nat, k: nat)
    requires from <= k <= |s|
    requires k < |s| ==> Test(t, s[k])
    requires forall j :: from <= j < k ==> !Test(t, s[j])
    ensures FirstWhere(s, t, from) == k
  {
  }

  // ---------------------------------------------------------------------------
  // The specification, step by step

  /** The lines of `s` that fail `t`, in order; with `StampLine`, the section without its old timestamps. */
  function Without(s: seq<string>, t: LineTest): seq<string>
    decreases |s|
  {
    if s == [] then []
    else (if Test(t, s[0]) then [] else [s[0]]) + Without(s[1..], t)
  }

  /** The insertion point when there is no image: in front of the trailing blank lines of `s[..k]`. */
  function BeforeTrailingBlanks(s: seq<string>, k: nat): (r: nat)
    requires k <= |s|
    ensures r <= k
    ensures forall j :: r <= j < k ==> IsBlank(s[j])
    ensures r > 0 ==> !IsBlank(s[r - 1])
    decreases k
  {
    if k > 0 && IsBlank(s[k - 1]) then BeforeTrailingBlanks(s, k - 1) else k
  }

  /** `s[i:i] = xs`. */
  function InsertAt(s: seq<string>, i: nat, xs: seq<string>): (r: seq<string>)
    requires i <= |s|
    ensures |r| == |s| + |xs|
  {
    s[..i] + xs + s[i..]
  }

  /** Where the new lines go, and which lines they are. */
  function StampedSection(s: seq<string>, stamp: string, chart: string): seq<string> {
    var image := FirstWhere(s, Image, 0);
    if image < |s| then InsertAt(s, image, [stamp, ""])
    else
      var marker := FirstWhere(s, MarkerLine, 0);
      var at := if marker < |s| then marker else BeforeTrailingBlanks(s, |s|);
      InsertAt(s, at, [stamp, "", chart, ""])
  }

  /** The `previous_blank` loop: a blank line right after a kept blank line is dropped. */
  function Collapse(s: seq<string>, previousBlank: bool): (r: seq<string>)
    decreases |s|
  {
    if s == [] then []
    else if IsBlank(s[0]) && previousBlank then Collapse(s[1..], previousBlank)
    else [s[0]] + Collapse(s[1..], IsBlank(s[0]))
  }

  /** The new section from the old one. */
  function NewSection(section: seq<string>, stamp: string, chart: string): seq<string> {
    Collapse(StampedSection(Without(section, StampLine), stamp, chart), false)
  }

  /** The patched lines, or None when the header is missing and nothing is written. */
  function Patch(lines: seq<string>, stamp: string): Option<seq<string>> {
    var start := FirstWhere(lines, Header, 0);
    if start == |lines| then None
    else
      Some(Spliced(lines, start, FirstWhere(lines, Subsection, start + 1), stamp))
  }

  /** The lines with `lines[start..end]` replaced by its new section. */
  function Spliced(lines: seq<string>, start: nat, end: nat, stamp: string): seq<string>
    requires start <= end <= |lines|
  {
    lines[..start] + NewSection(lines[start..end], stamp, ImageLine) + lines[end..]
  }

  /** `"\n".join(lines).rstrip() + "\n"`. */
  function Render(lines: seq<string>): (text: string)
    ensures text != [] && text[|text| - 1] == '\n'
    ensures |text| >= 2 ==> !IsSpace(text[|text| - 2])
    ensures var joined := Join(lines, "\n");
            && |text| - 1 <= |joined| && text[..|text| - 1] == joined[..|text| - 1]
            && forall i :: |text| - 1 <= i < |joined| ==> IsSpace(joined[i])
  {
    RStripKeeps(Join(lines, "\n"));
    RStrip(Join(lines, "\n")) + "\n"
  }

  /** The new README text, or None when nothing is written. */
  function UpdatedReadme(content: string, stamp: string): Option<string> {
    match Patch(SplitLines(content), stamp)
    case None => None
    case Some(lines) => Some(Render(lines))
  }

  // ---------------------------------------------------------------------------
  // What the patch promises

  /** The number of lines of `s` that pass `t`. */
  function Count(s: seq<string>, t: LineTest): nat
    decreases |s|
  {
    if s == [] then 0 else (if Test(t, s[0]) then 1 else 0) + Count(s[1..], t)
  }

  /** No blank line directly follows another. */
  predicate NoDoubleBlank(s: seq<string>) {
    forall k :: 0 <= k < |s| - 1 ==> !(IsBlank(s[k]) && IsBlank(s[k + 1]))
  }

  /** The timestamp sits directly above the chart image, one blank line between. */
  predicate StampAboveImage(s: seq<string>, stamp: string) {
    exists k :: 0 <= k && k + 2 < |s| && s[k] == stamp && s[k + 1] == "" && Test(Image, s[k + 2])
  }

  /** Nothing is written exactly when no line strips to the section header. */
  lemma {:induction false} PatchNone(lines: seq<string>, stamp: string)
    ensures Patch(lines, stamp).None? <==> forall i :: 0 <= i < |lines| ==> Strip(lines[i]) != SectionHeader
  {
    var start := FirstWhere(lines, Header, 0);
    if start < |lines| {
      assert Test(Header, lines[start]);
    } else {
      forall i | 0 <= i < |lines|
        ensures Strip(lines[i]) != SectionHeader
      {
        assert !Test(Header, lines[i]);
      }
    }
  }

  /**
   * The patch rewrites only the section, from the first header line up to
   * the next `### ` line; the rewritten section still opens with the header,
   * holds exactly one timestamp line, directly above the chart image, and no
   * two blank lines in a row.
   */
  lemma {:induction false} PatchedSection(lines: seq<string>, stamp: string)
    requires IsStampLine(stamp) && Patch(lines, stamp).Some?
    ensures var start := FirstWhere(lines, Header, 0);
            var end := FirstWhere(lines, Subsection, start + 1);
            var r := Patch(lines, stamp).value;
            && start < end <= |lines| && start + (|lines| - end) < |r|
            && r[..start] == lines[..start]
            && r[|r| - (|lines| - end)..] == lines[end..]
            && r[start] == lines[start]
            && Count(r[start..|r| - (|lines| - end)], StampLine) == 1
            && NoDoubleBlank(r[start..|r| - (|lines| - end)])
            && StampAboveImage(r[start..|r| - (|lines| - end)], stamp)
  {
    var start := FirstWhere(lines, Header, 0);
    var end := FirstWhere(lines, Subsection, start + 1);
    PatchFound(lines, stamp, start, end);
    SplicedShape(lines, start, end, stamp);
  }

  /** The section rebuilt in place, for any header line at `start` and any end of section. */
  lemma {:induction false} SplicedShape(lines: seq<string>, start: nat, end: nat, stamp: string)
    requires start < end <= |lines| && Test(Header, lines[start]) && IsStampLine(stamp)
    ensures var r := Spliced(lines, start, end, stamp);
            && start + (|lines| - end) < |r|
            && r[..start] == lines[..start]
            && r[|r| - (|lines| - end)..] == lines[end..]
            && r[start] == lines[start]
            && Count(r[start..|r| - (|lines| - end)], StampLine) == 1
            && NoDoubleBlank(r[start..|r| - (|lines| - end)])
            && StampAboveImage(r[start..|r| - (|lines| - end)], stamp)
  {
    var section := lines[start..end];
    var ns := NewSection(section, stamp, ImageLine);
    assert section[0] == lines[start];
    ImageLineIsImage();
    NewSectionShape(section, stamp, ImageLine);
    Splice(lines, start, end, ns);
  }

  lemma {:induction false} Splice(lines: seq<string>, start: nat, end: nat, ns: seq<string>)
    requires start < end <= |lines| && ns != []
    ensures var r := lines[..start] + ns + lines[end..];
            && start + (|lines| - end) < |r|
            && r[..start] == lines[..start]
            && r[|r| - (|lines| - end)..] == lines[end..]
            && r[start] == ns[0]
            && r[start..|r| - (|lines| - end)] == ns
  {
  }

  /** Every line of the old section that is neither blank nor a timestamp survives the rewrite. */
  lemma {:induction false} NewSectionKeeps(section: seq<string>, stamp: string, chart: string, x: string)
    requires x in section && !IsBlank(x) && !IsStampLine(x)
    ensures x in NewSection(section, stamp, chart)
  {
    var kept := Without(section, StampLine);
    WithoutKeeps(section, StampLine, x);
    var stamped := StampedSection(kept, stamp, chart);
    var image := FirstWhere(kept, Image, 0);
    if image < |kept| {
      InsertKeeps(kept, image, [stamp, ""], x);
    } else {
      var marker := FirstWhere(kept, MarkerLine, 0);
      var at := if marker < |kept| then marker else BeforeTrailingBlanks(kept, |kept|);
      InsertKeeps(kept, at, [stamp, "", chart, ""], x);
    }
    CollapseKeeps(stamped, false, x);
  }

  lemma {:induction false} InsertKeeps(s: seq<string>, i: nat, xs: seq<string>, x: string)
    requires i <= |s| && x in s
    ensures x in InsertAt(s, i, xs)
  {
    assert s == s[..i] + s[i..];
  }

  /** The rewritten section, from a section that opens with its header line. */
  lemma {:induction false} NewSectionShape(section: seq<string>, stamp: string, chart: string)
    requires section != [] && Test(Header, section[0]) && IsStampLine(stamp)
    requires Test(Image, chart) && !IsStampLine(chart)
    ensures var ns := NewSection(section, stamp, chart);
            && ns != [] && ns[0] == section[0]
            && Count(ns, StampLine) == 1 && NoDoubleBlank(ns) && StampAboveImage(ns, stamp)
  {
    var cp, y, ct := NewSectionParts(section, stamp, chart);
    StampAboveAt(cp, stamp, y, ct);
    NewSectionCount(section, stamp, chart);
    CollapseNoDoubleBlank(StampedSection(Without(section, StampLine), stamp, chart), false);
  }

  lemma {:induction false} StampAboveAt(cp: seq<string>, stamp: string, y: string, ct: seq<string>)
    requires Test(Image, y)
    ensures StampAboveImage(cp + [stamp, "", y] + ct, stamp)
  {
    var ns := cp + [stamp, "", y] + ct;
    assert ns[|cp|] == stamp && ns[|cp| + 1] == "" && ns[|cp| + 2] == y;
  }

  /** The rewritten section is the collapsed head part, the timestamp, a blank, the image line and the rest. */
  lemma {:induction false} NewSectionParts(section: seq<string>, stamp: string, chart: string) returns (cp: seq<string>, y: string, ct: seq<string>)
    requires section != [] && Test(Header, section[0]) && IsStampLine(stamp) && Test(Image, chart)
    ensures NewSection(section, stamp, chart) == cp + [stamp, "", y] + ct
    ensures cp != [] && cp[0] == section[0] && Test(Image, y)
  {
    HeaderLine(section[0]);
    var kept := Without(section, StampLine);
    assert kept == [section[0]] + Without(section[1..], StampLine);
    var pre, tail;
    pre, y, tail := StampedSplit(kept, stamp, chart);
    StampLinesNotBlank();
    ImageNotBlank(y);
    CollapseAcross(pre, stamp, y, tail);
    CollapseHead(pre);
    cp, ct := Collapse(pre, false), Collapse(tail, false);
  }

  /** The rewritten section holds exactly one timestamp line. */
  lemma {:induction false} NewSectionCount(section: seq<string>, stamp: string, chart: string)
    requires IsStampLine(stamp) && !IsStampLine(chart)
    ensures Count(NewSection(section, stamp, chart), StampLine) == 1
  {
    var kept := Without(section, StampLine);
    WithoutCount(section, StampLine);
    EmptyNotStamp();
    StampedCount(kept, stamp, chart, StampLine);
    StampLinesNotBlank();
    CollapseCount(StampedSection(kept, stamp, chart), false, StampLine);
  }

  lemma {:induction false} CollapseHead(s: seq<string>)
    requires s != []
    ensures Collapse(s, false) != [] && Collapse(s, false)[0] == s[0]
  {
  }

  lemma {:induction false} ImageNotBlank(y: string)
    requires Test(Image, y)
    ensures !IsBlank(y)
  {
    BlankIffStripsEmpty(y);
  }

  /** What a header line is not. */
  lemma {:induction false} HeaderLine(x: string)
    requires Test(Header, x)
    ensures !IsBlank(x) && !IsStampLine(x) && !Test(Image, x) && !Test(MarkerLine, x)
  {
    BlankIffStripsEmpty(x);
    var h := Strip(x);
    assert h[0] == '#';
    assert StampTemplate[0] == 'U';
    assert ImagePrefix[0] == '!';
    assert Marker[0] != '#';
  }

  /**
   * Where the new lines go: after a non-empty part `pre` that opens with the
   * header, with the image line `y` right after the timestamp and its blank.
   */
  lemma {:induction false} StampedSplit(kept: seq<string>, stamp: string, chart: string) returns (pre: seq<string>, y: string, tail: seq<string>)
    requires kept != [] && !IsBlank(kept[0]) && !Test(Image, kept[0]) && !Test(MarkerLine, kept[0])
    requires Test(Image, chart)
    ensures StampedSection(kept, stamp, chart) == pre + ([stamp, "", y] + tail)
    ensures pre != [] && pre[0] == kept[0] && Test(Image, y)
  {
    var image := FirstWhere(kept, Image, 0);
    if image < |kept| {
      pre, y, tail := kept[..image], kept[image], kept[image + 1..];
      InsertBeforeLine(kept, image, stamp);
    } else {
      var marker := FirstWhere(kept, MarkerLine, 0);
      var at := if marker < |kept| then marker else BeforeTrailingBlanks(kept, |kept|);
      pre, y, tail := kept[..at], chart, [""] + kept[at..];
      InsertWithLine(kept, at, stamp, chart);
    }
  }

  lemma {:induction false} InsertBeforeLine(s: seq<string>, i: nat, stamp: string)
    requires 0 < i < |s|
    ensures InsertAt(s, i, [stamp, ""]) == s[..i] + ([stamp, "", s[i]] + s[i + 1..])
    ensures s[..i][0] == s[0]
  {
    assert s[i..] == [s[i]] + s[i + 1..];
  }

  lemma {:induction false} InsertWithLine(s: seq<string>, i: nat, stamp: string, line: string)
    requires 0 < i <= |s|
    ensures InsertAt(s, i, [stamp, "", line, ""]) == s[..i] + ([stamp, "", line] + ([""] + s[i..]))
    ensures s[..i][0] == s[0]
  {
  }

  /** A section without timestamps gains exactly one. */
  lemma {:induction false} StampedCount(kept: seq<string>, stamp: string, chart: string, t: LineTest)
    requires Test(t, stamp) && !Test(t, chart) && !Test(t, "") && Count(kept, t) == 0
    ensures Count(StampedSection(kept, stamp, chart), t) == 1
  {
    var image := FirstWhere(kept, Image, 0);
    if image < |kept| {
      InsertCount(kept, image, [stamp, ""], t);
      PairCount(stamp, "", t);
    } else {
      var marker := FirstWhere(kept, MarkerLine, 0);
      var at := if marker < |kept| then marker else BeforeTrailingBlanks(kept, |kept|);
      InsertCount(kept, at, [stamp, "", chart, ""], t);
      QuadCount(stamp, "", chart, "", t);
    }
  }

  lemma {:induction false} PairCount(a: string, b: string, t: LineTest)
    ensures Count([a, b], t) == (if Test(t, a) then 1 else 0) + (if Test(t, b) then 1 else 0)
  {
    assert [a, b][0] == a && [a, b][1..] == [b];
    assert [b][0] == b && [b][1..] == [];
    assert Count([b], t) == (if Test(t, b) then 1 else 0) + Count([], t);
  }

  lemma {:induction false} QuadCount(a: string, b: string, c: string, d: string, t: LineTest)
    ensures Count([a, b, c, d], t) ==
            (if Test(t, a) then 1 else 0) + (if Test(t, b) then 1 else 0) + (if Test(t, c) then 1 else 0) + (if Test(t, d) then 1 else 0)
  {
    assert [a, b, c, d] == [a, b] + [c, d];
    CountAppend([a, b], [c, d], t);
    PairCount(a, b, t);
    PairCount(c, d, t);
  }

  /** Lines inserted into lines without a match bring their own matches and no others. */
  lemma {:induction false} InsertCount(s: seq<string>, i: nat, xs: seq<string>, t: LineTest)
    requires i <= |s| && Count(s, t) == 0
    ensures Count(InsertAt(s, i, xs), t) == Count(xs, t)
  {
    assert s == s[..i] + s[i..];
    CountAppend(s[..i], s[i..], t);
    CountAppend(s[..i], xs, t);
    CountAppend(s[..i] + xs, s[i..], t);
  }

  lemma {:induction false} CountAppend(a: seq<string>, b: seq<string>, t: LineTest)
    ensures Count(a + b, t) == Count(a, t) + Count(b, t)
    decreases |a|
  {
    if a != [] {
      assert (a + b)[0] == a[0] && (a + b)[1..] == a[1..] + b;
      CountAppend(a[1..], b, t);
      assert Count(a + b, t) == (if Test(t, a[0]) then 1 else 0) + Count(a[1..] + b, t);
    } else {
      assert a + b == b;
    }
  }

  lemma {:induction false} WithoutCount(s: seq<string>, t: LineTest)
    ensures Count(Without(s, t), t) == 0
    decreases |s|
  {
    if s != [] {
      WithoutCount(s[1..], t);
      var head := if Test(t, s[0]) then [] else [s[0]];
      CountAppend(head, Without(s[1..], t), t);
      if head != [] {
        assert head[0] == s[0] && head[1..] == [];
      }
    }
  }

  lemma {:induction false} WithoutKeeps(s: seq<string>, t: LineTest, x: string)
    requires x in s && !Test(t, x)
    ensures x in Without(s, t)
    decreases |s|
  {
    if s[0] != x {
      assert x in s[1..];
      WithoutKeeps(s[1..], t, x);
    }
  }

  /** A timestamp line is never blank. */
  lemma {:induction false} StampLinesNotBlank()
    ensures forall x :: IsStampLine(x) ==> !IsBlank(x)
  {
    forall x | IsStampLine(x)
      ensures !IsBlank(x)
    {
      BlankIffStripsEmpty(x);
    }
  }

  /** Collapsing drops blank lines only, so it keeps every line a non-blank test picks out. */
  lemma {:induction false} CollapseCount(s: seq<string>, previousBlank: bool, t: LineTest)
    requires forall x :: Test(t, x) ==> !IsBlank(x)
    ensures Count(Collapse(s, previousBlank), t) == Count(s, t)
    decreases |s|
  {
    if s != [] {
      if IsBlank(s[0]) && previousBlank {
        CollapseCount(s[1..], previousBlank, t);
      } else {
        var rest := Collapse(s[1..], IsBlank(s[0]));
        CollapseCount(s[1..], IsBlank(s[0]), t);
        assert ([s[0]] + rest)[0] == s[0] && ([s[0]] + rest)[1..] == rest;
      }
    }
  }

  lemma {:induction false} CollapseNoDoubleBlank(s: seq<string>, previousBlank: bool)
    ensures NoDoubleBlank(Collapse(s, previousBlank))
    ensures previousBlank && Collapse(s, previousBlank) != [] ==> !IsBlank(Collapse(s, previousBlank)[0])
    decreases |s|
  {
    if s != [] {
      if IsBlank(s[0]) && previousBlank {
        CollapseNoDoubleBlank(s[1..], previousBlank);
      } else {
        var b := IsBlank(s[0]);
        var rest := Collapse(s[1..], b);
        CollapseNoDoubleBlank(s[1..], b);
        var r := [s[0]] + rest;
        assert forall k :: 1 <= k < |r| ==> r[k] == rest[k - 1];
      }
    }
  }

  lemma {:induction false} CollapseKeeps(s: seq<string>, previousBlank: bool, x: string)
    requires x in s && !IsBlank(x)
    ensures x in Collapse(s, previousBlank)
    decreases |s|
  {
    if s[0] != x {
      assert x in s[1..];
      if IsBlank(s[0]) && previousBlank {
        CollapseKeeps(s[1..], previousBlank, x);
      } else {
        CollapseKeeps(s[1..], IsBlank(s[0]), x);
      }
    }
  }

  /** Collapsing works left to right: the state after `a` is whether its last line is blank. */
  lemma {:induction false} CollapseAppend(a: seq<string>, b: seq<string>, previousBlank: bool)
    ensures Collapse(a + b, previousBlank) ==
            Collapse(a, previousBlank) + Collapse(b, if a == [] then previousBlank else IsBlank(a[|a| - 1]))
    decreases |a|
  {
    if a == [] {
      assert a + b == b;
    } else {
      assert (a + b)[0] == a[0] && (a + b)[1..] == a[1..] + b;
      if IsBlank(a[0]) && previousBlank {
        CollapseAppend(a[1..], b, previousBlank);
      } else {
        CollapseAppend(a[1..], b, IsBlank(a[0]));
      }
    }
  }

  /** A non-blank timestamp, a blank line and a non-blank image line pass the collapse unchanged. */
  lemma {:induction false} CollapseAcross(pre: seq<string>, stamp: string, y: string, tail: seq<string>)
    requires !IsBlank(stamp) && !IsBlank(y)
    ensures Collapse(pre + ([stamp, "", y] + tail), false) == Collapse(pre, false) + [stamp, "", y] + Collapse(tail, false)
  {
    CollapseAppend(pre, [stamp, "", y] + tail, false);
    CollapseTriple(stamp, y, tail, if pre == [] then false else IsBlank(pre[|pre| - 1]));
  }

  lemma {:induction false} CollapseTriple(stamp: string, y: string, tail: seq<string>, previousBlank: bool)
    requires !IsBlank(stamp) && !IsBlank(y)
    ensures Collapse([stamp, "", y] + tail, previousBlank) == [stamp, "", y] + Collapse(tail, false)
  {
    assert [stamp, "", y] + tail == [stamp] + (["", y] + tail);
    assert ["", y] + tail == [""] + ([y] + tail);
    assert IsBlank("");
    CollapseCons(stamp, ["", y] + tail, previousBlank);
    CollapseCons("", [y] + tail, false);
    CollapseCons(y, tail, true);
  }

  lemma {:induction false} CollapseCons(x: string, rest: seq<string>, previousBlank: bool)
    ensures Collapse([x] + rest, previousBlank) ==
            if IsBlank(x) && previousBlank then Collapse(rest, previousBlank) else [x] + Collapse(rest, IsBlank(x))
  {
    assert ([x] + rest)[0] == x && ([x] + rest)[1..] == rest;
  }

  lemma {:induction false} EmptyNotStamp()
    ensures !IsStampLine("")
  {
  }

  lemma {:induction false} ImageLineIsImage()
    ensures Test(Image, ImageLine) && !IsStampLine(ImageLine)
  {
    assert ImagePrefix[0] == '!' && ImageTarget[|ImageTarget| - 1] == ')';
    StripKeeps(ImageLine);
    PrefixOf(ImagePrefix, ImageTarget);
    assert StampTemplate[0] == 'U';
  }

  lemma {:induction false} StripKeeps(s: string)
    requires s != [] && !IsSpace(s[0]) && !IsSpace(s[|s| - 1])
    ensures Strip(s) == s
  {
  }

  lemma {:induction false} PrefixOf(p: string, t: string)
    ensures StartsWith(p + t, p)
  {
    assert (p + t)[..|p|] == p;
  }

  // ---------------------------------------------------------------------------
  // The timestamp

  /** The wall-clock reading `datetime.now(ZoneInfo("Asia/Taipei"))` provides. */
  datatype Clock = Clock(year: nat, month: nat, day: nat, hour: nat, minute: nat, second: nat)

  predicate ValidClock(c: Clock) {
    1000 <= c.year <= 9999 && 1 <= c.month <= 12 && 1 <= c.day <= 31
    && c.hour < 24 && c.minute < 60 && c.second < 61
  }

  /** `strftime("Update time: %Y-%m-%d %H:%M:%S CST")`. */
  function FormatStamp(c: Clock): string
    requires ValidClock(c)
  {
    "Update time: " + NatToString(c.year) + "-" + Pad2(c.month) + "-" + Pad2(c.day)
    + " " + Pad2(c.hour) + ":" + Pad2(c.minute) + ":" + Pad2(c.second) + " CST"
  }

  /** The new timestamp line is one the next run recognises and removes. */
  lemma {:induction false} FormatStampIsStampLine(c: Clock)
    requires ValidClock(c)
    ensures IsStampLine(FormatStamp(c))
  {
    FourDigits(c.year);
    var s := FormatStamp(c);
    assert s[0] == 'U' && s[|s| - 1] == 'T';
    StripKeeps(s);
    StampFits("Update time: ", NatToString(c.year), Pad2(c.month), Pad2(c.day), Pad2(c.hour), Pad2(c.minute), Pad2(c.second));
  }

  lemma {:induction false} StampFits(lead: string, y: string, mo: string, d: string, h: string, mi: string, se: string)
    requires lead == "Update time: "
    requires |y| == 4 && AllDigits(y) && |mo| == 2 && AllDigits(mo) && |d| == 2 && AllDigits(d)
    requires |h| == 2 && AllDigits(h) && |mi| == 2 && AllDigits(mi) && |se| == 2 && AllDigits(se)
    ensures FitsTemplate(lead + y + "-" + mo + "-" + d + " " + h + ":" + mi + ":" + se + " CST", StampTemplate)
  {
    var s := lead + y + "-" + mo + "-" + d + " " + h + ":" + mi + ":" + se + " CST";
    assert StampTemplate == lead + "####" + "-" + "##" + "-" + "##" + " " + "##" + ":" + "##" + ":" + "##" + " CST";
    FitsLiteral(lead);
    FitsDigits(y, "####");
    FitsLiteral("-");
    FitsDigits(mo, "##");
    FitsDigits(d, "##");
    FitsLiteral(" ");
    FitsDigits(h, "##");
    FitsLiteral(":");
    FitsDigits(mi, "##");
    FitsDigits(se, "##");
    FitsLiteral(" CST");
    FitsAppend(lead, y, lead, "####");
    FitsAppend(lead + y, "-", lead + "####", "-");
    FitsAppend(lead + y + "-", mo, lead + "####" + "-", "##");
    FitsAppend(lead + y + "-" + mo, "-", lead + "####" + "-" + "##", "-");
    FitsAppend(lead + y + "-" + mo + "-", d, lead + "####" + "-" + "##" + "-", "##");
    FitsAppend(lead + y + "-" + mo + "-" + d, " ", lead + "####" + "-" + "##" + "-" + "##", " ");
    FitsAppend(lead + y + "-" + mo + "-" + d + " ", h, lead + "####" + "-" + "##" + "-" + "##" + " ", "##");
    FitsAppend(lead + y + "-" + mo + "-" + d + " " + h, ":", lead + "####" + "-" + "##" + "-" + "##" + " " + "##", ":");
    FitsAppend(lead + y + "-" + mo + "-" + d + " " + h + ":", mi, lead + "####" + "-" + "##" + "-" + "##" + " " + "##" + ":", "##");
    FitsAppend(lead + y + "-" + mo + "-" + d + " " + h + ":" + mi, ":", lead + "####" + "-" + "##" + "-" + "##" + " " + "##" + ":" + "##", ":");
    FitsAppend(lead + y + "-" + mo + "-" + d + " " + h + ":" + mi + ":", se, lead + "####" + "-" + "##" + "-" + "##" + " " + "##" + ":" + "##" + ":", "##");
    FitsAppend(lead + y + "-" + mo + "-" + d + " " + h + ":" + mi + ":" + se, " CST", lead + "####" + "-" + "##" + "-" + "##" + " " + "##" + ":" + "##" + ":" + "##", " CST");
  }

  lemma {:induction false} FitsAppend(a: string, b: string, ta: string, tb: string)
    requires FitsTemplate(a, ta) && FitsTemplate(b, tb)
    ensures FitsTemplate(a + b, ta + tb)
  {
    assert forall i :: |a| <= i < |a + b| ==> (a + b)[i] == b[i - |a|] && (ta + tb)[i] == tb[i - |a|];
  }

  lemma {:induction false} FitsLiteral(s: string)
    requires forall i :: 0 <= i < |s| ==> s[i] != '#'
    ensures FitsTemplate(s, s)
  {
  }

  lemma {:induction false} FitsDigits(s: string, t: string)
    requires AllDigits(s) && |s| == |t| && forall i :: 0 <= i < |t| ==> t[i] == '#'
    ensures FitsTemplate(s, t)
  {
  }

  // ---------------------------------------------------------------------------
  // The function itself, loop by loop

  /**
   * `update_readme_timestamp` from the README text it reads: the text to
   * write back, or None when the section header is missing (the missing
   * file case returns before any of this).
   */
  method UpdateReadmeTimestamp(content: string, now: Clock) returns (written: Option<string>)
    requires ValidClock(now)
    ensures written == UpdatedReadme(content, FormatStamp(now))
  {
    var patched := PatchLines(SplitLines(content), FormatStamp(now));
    if patched.None? {
      return None;
    }
    written := Some(Render(patched.value));
  }

  /** The line-level part: find the section, rebuild it, splice it back. */
  method PatchLines(lines: seq<string>, stamp: string) returns (r: Option<seq<string>>)
    ensures r == Patch(lines, stamp)
  {
    var start := FindFirst(lines, Header, 0);
    if start == |lines| {
      return None;
    }
    assert start < |lines|;
    var end := FindFirst(lines, Subsection, start + 1);
    var section := DropLines(lines[start..end], StampLine);
    section := InsertStamp(section, stamp);
    var normalized := CollapseBlankLines(section);
    PatchFound(lines, stamp, start, end);
    r := Some(lines[..start] + normalized + lines[end..]);
  }

  lemma {:induction false} PatchFound(lines: seq<string>, stamp: string, start: nat, end: nat)
    requires start == FirstWhere(lines, Header, 0) < |lines|
    requires end == FirstWhere(lines, Subsection, start + 1)
    ensures end <= |lines| && Patch(lines, stamp) == Some(Spliced(lines, start, end, stamp))
  {
  }

  /** The new timestamp goes in front of the image, or with the image in front of the marker or the trailing blanks. */
  method InsertStamp(section: seq<string>, stamp: string) returns (r: seq<string>)
    ensures r == StampedSection(section, stamp, ImageLine)
  {
    var image := FindFirst(section, Image, 0);
    if image < |section| {
      r := section[..image] + [stamp, ""] + section[image..];
    } else {
      var at := FindFirst(section, MarkerLine, 0);
      if at == |section| {
        at := WalkBackBlanks(section);
      }
      r := section[..at] + [stamp, "", ImageLine, ""] + section[at..];
    }
  }

  /** A `for ... break` search. */
  method FindFirst(s: seq<string>, t: LineTest, from: nat) returns (k: nat)
    requires from <= |s|
    ensures k == FirstWhere(s, t, from)
  {
    k := from;
    while k < |s| && !Test(t, s[k])
      invariant from <= k <= |s|
      invariant forall j :: from <= j < k ==> !Test(t, s[j])
    {
      k := k + 1;
    }
    FirstWhereUnique(s, t, from, k);
  }

  /** The list comprehension that drops the old timestamp lines (with `t` the timestamp test). */
  method DropLines(s: seq<string>, t: LineTest) returns (kept: seq<string>)
    ensures kept == Without(s, t)
  {
    kept := [];
    var i := 0;
    while i < |s|
      invariant 0 <= i <= |s|
      invariant kept + Without(s[i..], t) == Without(s, t)
    {
      WithoutAdvance(s, i, kept, t);
      kept := kept + if Test(t, s[i]) then [] else [s[i]];
      i := i + 1;
    }
  }

  /** One turn of the comprehension keeps its invariant. */
  lemma {:induction false} WithoutAdvance(s: seq<string>, i: nat, kept: seq<string>, t: LineTest)
    requires i < |s| && kept + Without(s[i..], t) == Without(s, t)
    ensures (kept + if Test(t, s[i]) then [] else [s[i]]) + Without(s[i + 1..], t) == Without(s, t)
  {
    assert s[i..][0] == s[i] && s[i..][1..] == s[i + 1..];
  }

  /** The `while insert_index > 0 and ...` loop. */
  method WalkBackBlanks(s: seq<string>) returns (k: nat)
    ensures k == BeforeTrailingBlanks(s, |s|)
  {
    k := |s|;
    while k > 0 && IsBlank(s[k - 1])
      invariant k <= |s|
      invariant BeforeTrailingBlanks(s, k) == BeforeTrailingBlanks(s, |s|)
    {
      k := k - 1;
    }
  }

  /** One turn of the `previous_blank` loop keeps its invariant. */
  lemma {:induction false} CollapseAdvance(s: seq<string>, i: nat, out: seq<string>, previousBlank: bool)
    requires i < |s| && out + Collapse(s[i..], previousBlank) == Collapse(s, false)
    ensures IsBlank(s[i]) && previousBlank ==> out + Collapse(s[i + 1..], previousBlank) == Collapse(s, false)
    ensures !(IsBlank(s[i]) && previousBlank) ==> (out + [s[i]]) + Collapse(s[i + 1..], IsBlank(s[i])) == Collapse(s, false)
  {
    assert s[i..][1..] == s[i + 1..];
    if !(IsBlank(s[i]) && previousBlank) {
      assert Collapse(s[i..], previousBlank) == [s[i]] + Collapse(s[i + 1..], IsBlank(s[i]));
    }
  }

  /** The `previous_blank` loop. */
  method CollapseBlankLines(s: seq<string>) returns (out: seq<string>)
    ensures out == Collapse(s, false)
  {
    out := [];
    var previousBlank := false;
    var i := 0;
    while i < |s|
      invariant 0 <= i <= |s|
      invariant out + Collapse(s[i..], previousBlank) == Collapse(s, false)
    {
      var currentBlank := IsBlank(s[i]);
      CollapseAdvance(s, i, out, previousBlank);
      if !(currentBlank && previousBlank) {
        out := out + [s[i]];
        previousBlank := currentBlank;
      }
      i := i + 1;
    }
  }
}
