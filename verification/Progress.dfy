/** The percentage a read reports, and why it never goes back. */
module Progress {
  import opened Bytes

  const FILES_PERCENT := 65
  const FILES_BASE := 25

  /** What the files already done are worth, and what one file is. */
  function Whole(files: nat, filesDone: nat): (w: nat)
    requires files > 0
  {
    Quotient(FILES_PERCENT * filesDone, files);
    FILES_PERCENT * filesDone / files
  }

  function Span(files: nat): (s: nat)
    requires files > 0
  {
    Quotient(FILES_PERCENT, files);
    FILES_PERCENT / files
  }

  /** What the current file has added so far. */
  function Part(span: nat, done: nat, total: nat): (p: nat) {
    if total == 0 then 0
    else if done < total then Quotient(span * done, total); span * done / total
    else span
  }

  /** How far a read is: `filesDone` whole files of `filesTotal`, and `done` of the current one's `total` bytes. */
  function Percent(filesTotal: nat, filesDone: nat, done: nat, total: nat): (p: nat)
    ensures FILES_BASE <= p <= 90
  {
    var files := if filesTotal > 0 then filesTotal else 1;
    Min(90, Whole(files, filesDone) + Part(Span(files), done, total) + FILES_BASE)
  }

  lemma Quotient(a: nat, n: nat)
    requires n > 0
    ensures 0 <= a / n && n * (a / n) <= a < n * (a / n) + n
  {
  }

  lemma QuotientIs(a: nat, n: nat, q: nat)
    requires n > 0 && n * q <= a
    ensures q <= a / n
  {
    Quotient(a, n);
    Cancel(n, q, a / n);
  }

  lemma Cancel(n: nat, q: nat, r: nat)
    requires n * q < n * r + n
    ensures q <= r
  {
    assert n * r + n == n * (r + 1);
  }

  lemma QuotientGrows(a: nat, b: nat, n: nat)
    requires n > 0 && a <= b
    ensures a / n <= b / n
  {
    Quotient(a, n);
    QuotientIs(b, n, a / n);
  }

  lemma QuotientShrinks(a: nat, n: nat, m: nat)
    requires 0 < m <= n
    ensures a / n <= a / m
  {
    Quotient(a, n);
    assert m * (a / n) <= n * (a / n);
    QuotientIs(a, m, a / n);
  }

  lemma PartBound(span: nat, done: nat, total: nat)
    ensures Part(span, done, total) <= span
  {
    if total > 0 && done < total {
      Quotient(span * done, total);
      assert span * done <= span * total == total * span;
      Cancel(total, span * done / total, span);
    }
  }

  lemma PartGrows(span: nat, a: nat, b: nat, total: nat)
    requires a <= b
    ensures Part(span, a, total) <= Part(span, b, total)
  {
    if total > 0 && a < total {
      PartBound(span, a, total);
      if b < total {
        assert span * a <= span * b;
        QuotientGrows(span * a, span * b, total);
      }
    }
  }

  lemma WholeNext(files: nat, filesDone: nat)
    requires files > 0
    ensures Whole(files, filesDone) + Span(files) <= Whole(files, filesDone + 1)
  {
    var w, s := Whole(files, filesDone), Span(files);
    Quotient(FILES_PERCENT, files);
    Quotient(FILES_PERCENT * filesDone, files);
    assert files * (w + s) == files * w + files * s;
    QuotientIs(FILES_PERCENT * (filesDone + 1), files, w + s);
  }

  /** More of the current file never lowers the percentage. */
  lemma PercentGrows(filesTotal: nat, filesDone: nat, a: nat, b: nat, total: nat)
    requires a <= b
    ensures Percent(filesTotal, filesDone, a, total) <= Percent(filesTotal, filesDone, b, total)
  {
    hide Whole, Span, Part;
    var files := if filesTotal > 0 then filesTotal else 1;
    PartGrows(Span(files), a, b, total);
  }

  /** Learning a file's size, and finishing the file, never lower it either. */
  lemma PercentWithinFile(filesTotal: nat, filesDone: nat, done: nat, total: nat)
    ensures Percent(filesTotal, filesDone, 0, 0) <= Percent(filesTotal, filesDone, done, total)
    ensures Percent(filesTotal, filesDone, done, total) <= Percent(filesTotal, filesDone + 1, 0, 0)
  {
    var files := if filesTotal > 0 then filesTotal else 1;
    assert Part(Span(files), 0, 0) == 0;
    hide Whole, Span, Part;
    PartBound(Span(files), done, total);
    WholeNext(files, filesDone);
  }

  /** A plan that turns out to hold fewer files moves it forward, never back. */
  lemma PercentReplanned(before: nat, after: nat, filesDone: nat)
    requires after <= before
    ensures Percent(before, filesDone, 0, 0) <= Percent(after, filesDone, 0, 0)
  {
    var n, m := if before > 0 then before else 1, if after > 0 then after else 1;
    QuotientShrinks(FILES_PERCENT * filesDone, n, m);
    assert Part(Span(n), 0, 0) == 0 == Part(Span(m), 0, 0);
  }

  /** In numbers: 25 before the first file and 90 after the last, each file the same share of the 65 between. */
  lemma PercentInNumbers(files: nat, filesDone: nat, total: nat)
    requires 0 < files && filesDone <= files && 0 < total
    ensures Percent(files, 0, 0, 0) == 25 && Percent(files, files, 0, 0) == 90
    ensures Percent(files, filesDone, 0, total) == 25 + 65 * filesDone / files
    ensures filesDone < files ==> Percent(files, filesDone, total, total) == 25 + 65 * filesDone / files + 65 / files
  {
    hide Part;
    PartEnds(Span(files), total);
    assert 65 * files / files == 65 by { QuotientIs(65 * files, files, 65); Quotient(65 * files, files); Cancel(files, 65 * files / files, 65); }
    QuotientGrows(65 * filesDone, 65 * files, files);
    WholeNext(files, filesDone);
    if filesDone < files {
      QuotientGrows(65 * (filesDone + 1), 65 * files, files);
    }
  }

  lemma PartEnds(span: nat, total: nat)
    requires total > 0
    ensures Part(span, 0, total) == 0 && Part(span, total, total) == span && Part(span, 0, 0) == 0
  {
    assert span * 0 / total == 0;
  }

  /** The percentages reported so far, in order, none above `p`. */
  predicate Rising(reports: seq<nat>, p: nat) {
    && (forall i, j :: 0 <= i <= j < |reports| ==> reports[i] <= reports[j])
    && (reports != [] ==> reports[|reports| - 1] <= p)
  }

  lemma RisingBelow(reports: seq<nat>, p: nat, q: nat)
    requires Rising(reports, p) && p <= q
    ensures Rising(reports, q)
  {
  }
}
