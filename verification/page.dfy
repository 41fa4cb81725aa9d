/** The editor page: the name of the exported PDF and the "Download PDF"
    button, whose handler sets a busy flag, awaits the capture of the preview,
    saves the document and clears the flag. */
module Page {
  import opened Results
  import opened ResumeTypes

  /** Index of the first occurrence of `c`, or `|s|` when there is none. */
  function FirstIndexOf(s: string, c: char): (i: nat)
    ensures i <= |s|
    ensures c !in s[..i]
    ensures i < |s| ==> s[i] == c
  {
    if |s| == 0 then 0
    else if s[0] == c then 0
    else
      var i := FirstIndexOf(s[1..], c) + 1;
      assert s[..i] == [s[0]] + s[1..][..i - 1];
      i
  }

  /** `name.replace(' ', '-')`: with a string pattern only the first space
      becomes '-'; every other character, later spaces included, is kept. */
  function ReplaceFirstSpace(s: string): (r: string)
    ensures |r| == |s|
    ensures forall k :: 0 <= k < |s| && s[k] != ' ' ==> r[k] == s[k]
    ensures forall k :: 0 <= k < |s| && s[k] == ' ' && ' ' !in s[..k] ==> r[k] == '-'
    ensures forall k :: 0 <= k < |s| && s[k] == ' ' && ' ' in s[..k] ==> r[k] == ' '
  {
    var i := FirstIndexOf(s, ' ');
    if i == |s| then s
    else
      var r := s[..i] + "-" + s[i + 1..];
      assert forall k :: 0 <= k < |s| && s[k] == ' ' ==> k >= i by {
        forall k | 0 <= k < i
          ensures s[k] != ' '
        {
          assert s[..i][k] == s[k];
        }
      }
      assert forall k :: i < k < |s| ==> s[..k][i] == ' ';
      r
  }

  /** A name without spaces is copied verbatim; otherwise exactly one space
      is lost and nothing else changes in the character counts. */
  lemma ReplaceFirstSpaceCounts(s: string)
    ensures ' ' !in s ==> ReplaceFirstSpace(s) == s
    ensures ' ' in s ==> multiset(ReplaceFirstSpace(s)) == multiset(s) - multiset{' '} + multiset{'-'}
  {
    var i := FirstIndexOf(s, ' ');
    if i < |s| {
      assert s == s[..i] + [' '] + s[i + 1..];
      assert ReplaceFirstSpace(s) == s[..i] + ['-'] + s[i + 1..];
    }
  }

  const FilePrefix: string := "Resume-"
  const FileSuffix: string := ".pdf"

  /** The name `pdf.save` is given for a resume whose name is `name`. */
  function FileName(name: string): (r: string)
    ensures |r| == |name| + 11
    ensures r[..|FilePrefix|] == FilePrefix
    ensures r[|r| - |FileSuffix|..] == FileSuffix
    ensures r[|FilePrefix|..|r| - |FileSuffix|] == ReplaceFirstSpace(name)
  {
    var r := FilePrefix + ReplaceFirstSpace(name) + FileSuffix;
    assert r[|FilePrefix|..|r| - |FileSuffix|] == ReplaceFirstSpace(name);
    r
  }

  lemma FirstIndexOfIs(s: string, c: char, i: nat)
    requires i < |s| && s[i] == c && c !in s[..i]
    ensures FirstIndexOf(s, c) == i
  {
  }

  /** The space after a space-free head is the one that becomes '-'; the
      tail after it is copied unchanged, spaces included. */
  lemma ReplaceFirstSpaceAfterHead(head: string, tail: string)
    requires ' ' !in head
    ensures ReplaceFirstSpace(head + " " + tail) == head + "-" + tail
  {
    var s := head + " " + tail;
    assert s[..|head|] == head;
    assert s[|head| + 1..] == tail;
    FirstIndexOfIs(s, ' ', |head|);
  }

  /** For a name whose first space follows `head`, the file is
      "Resume-" + head + "-" + the rest of the name, later spaces kept, so
      the sample name "Amelia Vance" gives "Resume-Amelia-Vance.pdf", and a
      name with two spaces such as "Mary Ann Lee" would give
      "Resume-Mary-Ann Lee.pdf". */
  lemma FileNameOfSpacedName(head: string, tail: string)
    requires ' ' !in head
    ensures FileName(head + " " + tail) == "Resume-" + head + "-" + tail + ".pdf"
  {
    ReplaceFirstSpaceAfterHead(head, tail);
  }

  /** A name without spaces is copied verbatim between prefix and suffix. */
  lemma FileNameOfPlainName(name: string)
    requires ' ' !in name
    ensures FileName(name) == "Resume-" + name + ".pdf"
  {
    ReplaceFirstSpaceCounts(name);
  }

  /** The page state the download handler reads and writes. `pending` holds,
      while a capture is awaited, the name the handler's closure saw when it
      was clicked; `saved` lists the files saved so far. */
  datatype PageState = PageState(
    data: ResumeData,
    isDownloading: bool,
    pending: Option<string>,
    saved: seq<string>)

  const InitialPage: PageState := PageState(InitialData, false, None, [])

  /** `disabled={isDownloading}` */
  predicate ButtonDisabled(p: PageState) {
    p.isDownloading
  }

  /** The flag is set exactly while a capture is awaited. */
  predicate Valid(p: PageState) {
    p.isDownloading <==> p.pending.Some?
  }

  /** A click on the button, up to the `await` of the capture. A disabled
      button does nothing; with no preview element the handler returns at
      once and the flag is untouched; otherwise the flag is set and the
      capture starts. */
  function Click(p: PageState, hasPreview: bool): (q: PageState)
    ensures ButtonDisabled(p) || !hasPreview ==> q == p
    ensures !ButtonDisabled(p) && hasPreview ==>
              && q.isDownloading && ButtonDisabled(q)
              && q.pending == Some(p.data.personalInfo.name)
              && q.saved == p.saved && q.data == p.data
  {
    if ButtonDisabled(p) || !hasPreview then p
    else p.(isDownloading := true, pending := Some(p.data.personalInfo.name))
  }

  /** The rest of the handler after the capture resolves: one file is saved,
      named after the resume name at click time, and the flag is cleared. */
  function CaptureDone(p: PageState): (q: PageState)
    requires p.pending.Some?
    ensures !q.isDownloading && q.pending.None?
    ensures q.saved == p.saved + [FileName(p.pending.value)]
    ensures q.data == p.data
  {
    p.(isDownloading := false, pending := None, saved := p.saved + [FileName(p.pending.value)])
  }

  /** The form pushing new data into the page while a capture may be pending. */
  function Edit(p: PageState, d: ResumeData): (q: PageState)
    ensures q.data == d
    ensures q.isDownloading == p.isDownloading && q.pending == p.pending && q.saved == p.saved
  {
    p.(data := d)
  }

  /** The page starts idle with the flag clear, and every step keeps the
      flag in step with the pending capture, so in every reachable state the
      button is disabled exactly while a capture runs and a second click
      cannot start another one. */
  lemma StepsKeepValid(p: PageState, hasPreview: bool, d: ResumeData)
    requires Valid(p)
    ensures Valid(Click(p, hasPreview))
    ensures p.pending.Some? ==> Valid(CaptureDone(p))
    ensures Valid(Edit(p, d))
    ensures p.pending.Some? ==> Click(p, hasPreview) == p
    ensures Valid(InitialPage) && !ButtonDisabled(InitialPage)
  {
  }

  /** A full download from an idle page saves exactly one file, named after
      the name at click time even if the data was edited meanwhile, and
      leaves the button enabled again. */
  lemma DownloadSavesOneFile(p: PageState, d: ResumeData)
    requires Valid(p) && !p.isDownloading
    ensures var q := CaptureDone(Edit(Click(p, true), d));
            && q.saved == p.saved + [FileName(p.data.personalInfo.name)]
            && !ButtonDisabled(q) && Valid(q)
  {
  }
}
