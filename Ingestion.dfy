/** The text sectioning of build_vector_db (ingestion.py): the page texts of
    the PDF become whitespace-normalised sections, cut at a delimiter, each
    stored as one document with its 0-based section index. */
module Ingestion {
  import opened Wrappers
  import opened Text
  import opened State

  const DefaultDelimiter := "skirtukas"
  const NoPagesPrefix := "No pages found in PDF: "
  /** The message of the ValueError str.split raises for an empty separator. */
  const EmptySeparator := "empty separator"
  const NoSectionsMessage := "No documents created from PDF content"

  /** "\n".join of the page texts with every whitespace run collapsed: the
      result has no whitespace but single spaces between words, has the
      same words as the pages joined by newlines, and keeps every other
      character of the pages, in order. */
  function FullText(pages: seq<string>): (t: string)
    ensures Normalized(t)
    ensures Words(t) == Words(Join(pages, "\n"))
    ensures Visible(t) == Visible(Join(pages, "\n"))
  {
    var joined := Join(pages, "\n");
    CollapseNormalized(joined);
    WordsCollapse(joined);
    CollapseKeepsText(joined);
    Collapse(joined)
  }

  /** [section.strip() for section in pieces] */
  function StripAll(pieces: seq<string>): (r: seq<string>)
    ensures |r| == |pieces|
  {
    seq(|pieces|, i requires 0 <= i < |pieces| => Strip(pieces[i]))
  }

  /** [s for s in xs if s]: the non-empty strings of xs, in order. */
  function DropEmpty(xs: seq<string>): (r: seq<string>)
    ensures |r| <= |xs|
    ensures forall x :: x in r ==> x in xs && x != []
    ensures forall i :: 0 <= i < |xs| && xs[i] != [] ==> xs[i] in r
  {
    if xs == [] then []
    else (if xs[0] != [] then [xs[0]] else []) + DropEmpty(xs[1..])
  }

  /** The sections of text cut at d. */
  function Sections(text: string, d: string): seq<string>
    requires d != []
  {
    DropEmpty(StripAll(SplitOn(text, d)))
  }

  /** Lines 47-68 of build_vector_db: the documents made from the page texts,
      or the message of the ValueError it raises. */
  function Sectioning(pdfPath: string, pages: seq<string>, delimiter: string := DefaultDelimiter): (r: Result<seq<Document>>)
    ensures pages == [] ==> r == Fail(NoPagesPrefix + pdfPath)
    ensures pages != [] && delimiter == [] ==> r == Fail(EmptySeparator)
    ensures pages != [] && delimiter != [] ==>
      (r == Fail(NoSectionsMessage) <==> Sections(FullText(pages), delimiter) == [])
    ensures pages != [] && delimiter != [] && Sections(FullText(pages), delimiter) != [] ==> r.Ok?
    ensures r.Ok? ==> (
      && pages != [] && delimiter != []
      && var secs := Sections(FullText(pages), delimiter);
      && |r.value| == |secs| > 0
      && forall k :: 0 <= k < |secs| ==> r.value[k] == Document(secs[k], None, Some(k)))
  {
    if pages == [] then Fail(NoPagesPrefix + pdfPath)
    else if delimiter == [] then Fail(EmptySeparator)
    else
      var secs := Sections(FullText(pages), delimiter);
      var documents := seq(|secs|, k requires 0 <= k < |secs| => Document(secs[k], None, Some(k)));
      if documents == [] then Fail(NoSectionsMessage) else Ok(documents)
  }

  /** Dropping empties distributes over concatenation, so the sections keep
      the relative order of the pieces they come from. */
  lemma {:induction false} DropEmptyAppend(xs: seq<string>, ys: seq<string>)
    ensures DropEmpty(xs + ys) == DropEmpty(xs) + DropEmpty(ys)
    decreases |xs|
  {
    if xs != [] {
      DropEmptyAppend(xs[1..], ys);
      var head := if xs[0] != [] then [xs[0]] else [];
      AppendTail(xs, ys);
      assert DropEmpty(xs + ys) == head + DropEmpty(xs[1..] + ys);
      assert DropEmpty(xs) == head + DropEmpty(xs[1..]);
      assert head + (DropEmpty(xs[1..]) + DropEmpty(ys)) == (head + DropEmpty(xs[1..])) + DropEmpty(ys);
    } else {
      assert xs + ys == ys;
    }
  }

  /** With no empty string, nothing is dropped. */
  lemma {:induction false} DropEmptyKeepsFull(xs: seq<string>)
    requires forall i :: 0 <= i < |xs| ==> xs[i] != []
    ensures DropEmpty(xs) == xs
    decreases |xs|
  {
    if xs != [] {
      DropEmptyKeepsFull(xs[1..]);
    }
  }

  /** A stripped piece that does not contain d is non-empty only if its
      ends are not whitespace, and it does not contain d either. */
  lemma StrippedAvoids(p: string, d: string)
    requires !Contains(p, d)
    ensures var x := Strip(p); x == [] || (!IsSpace(x[0]) && !IsSpace(x[|x| - 1]) && !Contains(x, d))
  {
    var lead := LeadingSpace(p);
    SliceAvoids(p, d, lead, lead + |Strip(p)|);
  }

  /** A section is a stripped piece of the text cut at d: non-empty, free
      of whitespace at either end, and free of the delimiter. */
  lemma SectionIsClean(text: string, d: string, x: string)
    requires d != [] && x in Sections(text, d)
    ensures x != [] && !IsSpace(x[0]) && !IsSpace(x[|x| - 1]) && !Contains(x, d)
    ensures exists i :: 0 <= i < |SplitOn(text, d)| && x == Strip(SplitOn(text, d)[i])
  {
    var pieces := SplitOn(text, d);
    var stripped := StripAll(pieces);
    assert x in stripped && x != [];
    var i :| 0 <= i < |stripped| && stripped[i] == x;
    SplitPiecesAvoidSeparator(text, d);
    assert !Contains(pieces[i], d);
    StrippedAvoids(pieces[i], d);
  }

  /** Every section is clean (SectionIsClean). */
  lemma SectionsAreClean(text: string, d: string)
    requires d != []
    ensures forall x :: x in Sections(text, d) ==> x != [] && !Contains(x, d)
  {
    forall x | x in Sections(text, d) ensures x != [] && !Contains(x, d) {
      SectionIsClean(text, d, x);
    }
  }

  /** Every piece of the text cut at d that is not blank becomes a section. */
  lemma SectionsAreComplete(text: string, d: string, i: nat)
    requires d != [] && i < |SplitOn(text, d)|
    requires !AllSpace(SplitOn(text, d)[i])
    ensures Strip(SplitOn(text, d)[i]) in Sections(text, d)
  {
    assert StripAll(SplitOn(text, d))[i] == Strip(SplitOn(text, d)[i]);
  }

  /** A text without the delimiter is one section, the text itself stripped,
      unless it is blank. */
  lemma {:induction false} NoDelimiterOneSection(text: string, d: string)
    requires d != [] && !Contains(text, d)
    ensures Sections(text, d) == if AllSpace(text) then [] else [Strip(text)]
  {
    assert FindFrom(text, d, 0).None?;
    assert SplitOn(text, d) == [text];
    assert StripAll([text]) == [Strip(text)];
    assert DropEmpty([Strip(text)]) == if Strip(text) == [] then [] else [Strip(text)] by {
      assert [Strip(text)][1..] == [];
    }
  }

  /** Each stored document is a section, indexed from 0 in order, and has no
      source, so a retrieval of it is labelled "Unknown". */
  lemma DocumentsIndexed(pdfPath: string, pages: seq<string>, delimiter: string)
    requires Sectioning(pdfPath, pages, delimiter).Ok?
    ensures var docs := Sectioning(pdfPath, pages, delimiter).value;
      forall k :: 0 <= k < |docs| ==>
        && docs[k].sectionIndex == Some(k)
        && docs[k].source == None
        && docs[k].pageContent != []
        && !Contains(docs[k].pageContent, delimiter)
  {
    var secs := Sections(FullText(pages), delimiter);
    SectionsAreClean(FullText(pages), delimiter);
    var docs := Sectioning(pdfPath, pages, delimiter).value;
    forall k | 0 <= k < |docs|
      ensures docs[k].pageContent != [] && !Contains(docs[k].pageContent, delimiter)
    {
      assert docs[k].pageContent == secs[k] && secs[k] in secs;
    }
  }
}
