/**
 * Choosing what to download and how to read it (scripts/monitor_transfer_count.py):
 * `guess_extension` names a file after the response headers, `read_table_auto`
 * picks a reader by extension, and `find_download_link` scores every link on
 * the page and keeps the best one.
 */
module Download {
  import opened Wrappers
  import opened Text

  // ---------------------------------------------------------------------------
  // Extensions

  /** `(headers.get(name) or "").lower()`: a missing header reads as the empty string. */
  function HeaderText(h: Option<string>): string {
    match h
    case None => ""
    case Some(v) => Lower(v)
  }

  /**
   * `guess_extension`: an `xlsx` content type or a `.xlsx` file name first,
   * then an `excel` content type or a `.xls` file name, and `.csv` for
   * everything else.
   */
  function GuessExtension(contentType: Option<string>, contentDisposition: Option<string>): (ext: string)
    ensures ext == ".xlsx" || ext == ".xls" || ext == ".csv"
    ensures var ct, cd := HeaderText(contentType), HeaderText(contentDisposition);
            && (ext == ".xlsx" <==> Contains(ct, "xlsx") || Contains(cd, ".xlsx"))
            && (ext == ".xls" <==> !Contains(ct, "xlsx") && !Contains(cd, ".xlsx") && (Contains(ct, "excel") || Contains(cd, ".xls")))
  {
    var ct, cd := HeaderText(contentType), HeaderText(contentDisposition);
    if Contains(ct, "xlsx") || Contains(cd, ".xlsx") then ".xlsx"
    else if Contains(ct, "excel") || Contains(cd, ".xls") then ".xls"
    else if Contains(ct, "csv") || Contains(cd, ".csv") then ".csv"
    else ".csv"
  }

  /** A `.xlsx` file name also contains `.xls`; the order of the tests is what sends it to `.xlsx`. */
  lemma {:induction false} XlsxNameWins(contentType: Option<string>, contentDisposition: Option<string>)
    requires Contains(HeaderText(contentDisposition), ".xlsx")
    ensures Contains(HeaderText(contentDisposition), ".xls")
    ensures GuessExtension(contentType, contentDisposition) == ".xlsx"
  {
    ContainsPrefix(HeaderText(contentDisposition), ".xlsx", ".xls");
  }

  /** How `read_table_auto` reads a file, by its lower-cased extension. */
  datatype Reader = CsvReader | ExcelReader | CsvThenExcel

  function ReaderFor(ext: string): (r: Reader)
    ensures r == CsvReader <==> ext == ".csv" || ext == ".txt"
    ensures r == ExcelReader <==> ext == ".xlsx" || ext == ".xls"
  {
    if ext == ".csv" || ext == ".txt" then CsvReader
    else if ext == ".xlsx" || ext == ".xls" then ExcelReader
    else CsvThenExcel
  }

  /** A downloaded file is always named so that `read_table_auto` picks its reader directly. */
  lemma {:induction false} GuessedExtensionIsRead(contentType: Option<string>, contentDisposition: Option<string>)
    ensures var ext := GuessExtension(contentType, contentDisposition);
            ReaderFor(Lower(ext)) != CsvThenExcel
            && (ReaderFor(Lower(ext)) == ExcelReader <==> ext != ".csv")
  {
    var ext := GuessExtension(contentType, contentDisposition);
    assert Lower(".xlsx") == ".xlsx" && Lower(".xls") == ".xls" && Lower(".csv") == ".csv";
  }

  // ---------------------------------------------------------------------------
  // Link scoring

  const TargetDatasetName := "建物買賣移轉登記棟數"
  const MinimumScore := 30

  /** An `<a>` element: its title, text, href and aria-label, and the text of its table row ("" when absent). */
  datatype Link = Link(title: string, text: string, href: string, aria: string, rowText: string)

  /** `" ".join([title, text, href, aria, row_text])`, each part stripped. */
  function Haystack(l: Link): string {
    Join([Strip(l.title), Strip(l.text), Strip(l.href), Strip(l.aria), Strip(l.rowText)], " ")
  }

  /** A link whose haystack is blank is skipped. */
  predicate IsCandidate(l: Link) {
    Strip(Haystack(l)) != []
  }

  function Points(cond: bool, p: nat): nat {
    if cond then p else 0
  }

  /** The additive score of a haystack. */
  function Score(h: string): nat {
    var low := Lower(h);
    Points(Contains(h, TargetDatasetName), 100)
    + Points(Contains(h, "建物買賣移轉棟數"), 60)
    + Points(Contains(h, "買賣移轉"), 30)
    + Points(Contains(h, "建物"), 15)
    + Points(Contains(h, "移轉"), 15)
    + Points(Contains(h, "棟數"), 15)
    + Points(Contains(h, "全台") || Contains(h, "全國"), 8)
    + Points(Contains(low, "csv"), 10)
    + Points(Contains(low, ".xls") || Contains(low, ".xlsx"), 8)
  }

  function LinkScore(l: Link): nat {
    Score(Haystack(l))
  }

  /** The dataset's own name earns its 100 points and, through the words inside it, 75 more. */
  lemma {:induction false} TargetScore(h: string)
    requires Contains(h, TargetDatasetName)
    ensures Score(h) >= 175
  {
    assert Contains(TargetDatasetName, "買賣移轉") by { ContainsAt(TargetDatasetName, "買賣移轉", 2); }
    assert Contains(TargetDatasetName, "建物") by { ContainsAt(TargetDatasetName, "建物", 0); }
    assert Contains(TargetDatasetName, "移轉") by { ContainsAt(TargetDatasetName, "移轉", 4); }
    assert Contains(TargetDatasetName, "棟數") by { ContainsAt(TargetDatasetName, "棟數", 8); }
    ContainsInfix(h, TargetDatasetName, "買賣移轉");
    ContainsInfix(h, TargetDatasetName, "建物");
    ContainsInfix(h, TargetDatasetName, "移轉");
    ContainsInfix(h, TargetDatasetName, "棟數");
  }

  /** What the loop of `find_download_link` sees of a link: nothing when it is skipped, else its score. */
  function Scored(l: Link): Option<nat> {
    if IsCandidate(l) then Some(LinkScore(l)) else None
  }

  function ScoreAll(links: seq<Link>): (scored: seq<Option<nat>>)
    ensures |scored| == |links|
    ensures forall j :: 0 <= j < |links| ==> scored[j] == Scored(links[j])
  {
    if links == [] then [] else [Scored(links[0])] + ScoreAll(links[1..])
  }

  /**
   * `find_download_link`: the first candidate with the strictly highest
   * score, returned only when that score reaches 30. The result is the
   * link's index in `links`.
   */
  method FindDownloadLink(links: seq<Link>) returns (best: Option<nat>)
    ensures best.Some? ==> best.value < |links| && Scored(links[best.value]).Some?
    ensures best.Some? ==> Scored(links[best.value]).value >= MinimumScore
    ensures best.Some? ==> forall j :: 0 <= j < |links| && Scored(links[j]).Some? ==>
                             Scored(links[j]).value <= Scored(links[best.value]).value
    ensures best.Some? ==> forall j :: 0 <= j < best.value && Scored(links[j]).Some? ==>
                             Scored(links[j]).value < Scored(links[best.value]).value
    ensures best.None? ==> forall j :: 0 <= j < |links| && Scored(links[j]).Some? ==> Scored(links[j]).value < MinimumScore
  {
    var scored := ScoreAll(links);
    best := FirstBest(scored, MinimumScore);
  }

  /** The loop itself: the first strictly highest score among the present ones, if it reaches `threshold`. */
  method FirstBest(scored: seq<Option<nat>>, threshold: int) returns (best: Option<nat>)
    ensures best.Some? ==> best.value < |scored| && scored[best.value].Some?
    ensures best.Some? ==> scored[best.value].value >= threshold
    ensures best.Some? ==> forall j :: 0 <= j < |scored| && scored[j].Some? ==>
                             scored[j].value <= scored[best.value].value
    ensures best.Some? ==> forall j :: 0 <= j < best.value && scored[j].Some? ==>
                             scored[j].value < scored[best.value].value
    ensures best.None? ==> forall j :: 0 <= j < |scored| && scored[j].Some? ==> scored[j].value < threshold
  {
    var bestIndex: Option<nat> := None;
    var bestScore: int := -1;
    var i := 0;
    while i < |scored|
      invariant 0 <= i <= |scored|
      invariant bestIndex.None? <==> bestScore == -1
      invariant bestIndex.None? ==> forall j :: 0 <= j < i ==> scored[j].None?
      invariant bestIndex.Some? ==> bestIndex.value < i && scored[bestIndex.value] == Some(bestScore as nat)
      invariant forall j :: 0 <= j < i && scored[j].Some? ==> scored[j].value <= bestScore
      invariant bestIndex.Some? ==> forall j :: 0 <= j < bestIndex.value && scored[j].Some? ==>
                                      scored[j].value < bestScore
    {
      if scored[i].Some? {
        var score := scored[i].value;
        if score > bestScore {
          bestScore := score;
          bestIndex := Some(i);
        }
      }
      i := i + 1;
    }
    if bestIndex.Some? && bestScore >= threshold {
      best := bestIndex;
    } else {
      best := None;
    }
  }

  /**
   * A link whose haystack names the dataset is a candidate above the
   * threshold, so by `FindDownloadLink`'s contract a page with one always
   * yields a link.
   */
  lemma {:induction false} TargetLinkQualifies(l: Link)
    requires Contains(Haystack(l), TargetDatasetName)
    ensures IsCandidate(l) && LinkScore(l) >= MinimumScore
  {
    var h := Haystack(l);
    TargetScore(h);
    var w := ContainsWitness(h, TargetDatasetName);
    assert h[w] == TargetDatasetName[0];
    NonBlankStrip(h, w);
  }

  /** A string with a non-white-space character does not strip to nothing. */
  lemma {:induction false} NonBlankStrip(s: string, w: nat)
    requires w < |s| && !IsSpace(s[w])
    ensures Strip(s) != []
  {
    BlankIffStripsEmpty(s);
  }
}
