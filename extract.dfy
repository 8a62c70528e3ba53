/** Text extraction from uploaded documents (app.py, `extract_text_from_pdf`
    and `extract_text_from_docx`). The parsing libraries are not modelled: a
    PDF is given as the sequence of its pages' extracted texts and a DOCX as
    the sequence of its paragraphs' texts, both in document order. */
module Extract {

  /** The in-order concatenation of `parts` with nothing in between,
      accumulated from the left as the source's `+=` loops do. */
  function Flatten(parts: seq<string>): string
  {
    if parts == [] then "" else Flatten(parts[..|parts| - 1]) + parts[|parts| - 1]
  }

  /** Sum of the lengths of `parts`. */
  function TotalLength(parts: seq<string>): nat
  {
    if parts == [] then 0 else TotalLength(parts[..|parts| - 1]) + |parts[|parts| - 1]|
  }

  /** Every paragraph with its terminating newline. */
  function Terminated(paragraphs: seq<string>): seq<string>
  {
    seq(|paragraphs|, i requires 0 <= i < |paragraphs| => paragraphs[i] + "\n")
  }

  /** The text of a PDF: page texts glued together, no separator. */
  method ExtractTextFromPdf(pages: seq<string>) returns (text: string)
    ensures text == Flatten(pages)
    ensures |text| == TotalLength(pages)
  {
    text := "";
    for i := 0 to |pages|
      invariant text == Flatten(pages[..i])
    {
      assert pages[..i + 1][..i] == pages[..i];
      text := text + pages[i];
    }
    assert pages[..|pages|] == pages;
    FlattenLength(pages);
  }

  /** The text of a DOCX: each paragraph followed by exactly one newline. */
  method ExtractTextFromDocx(paragraphs: seq<string>) returns (text: string)
    ensures text == Flatten(Terminated(paragraphs))
    ensures |text| == TotalLength(paragraphs) + |paragraphs|
  {
    text := "";
    for i := 0 to |paragraphs|
      invariant text == Flatten(Terminated(paragraphs[..i]))
    {
      assert Terminated(paragraphs[..i + 1])[..i] == Terminated(paragraphs[..i]);
      text := text + paragraphs[i] + "\n";
    }
    assert paragraphs[..|paragraphs|] == paragraphs;
    DocxLength(paragraphs);
  }

  lemma {:induction false} FlattenAppend(a: seq<string>, b: seq<string>)
    ensures Flatten(a + b) == Flatten(a) + Flatten(b)
    decreases |b|
  {
    if b == [] {
      assert a + b == a;
    } else {
      var n := |b| - 1;
      assert (a + b)[..|a + b| - 1] == a + b[..n];
      FlattenAppend(a, b[..n]);
    }
  }

  /** The extracted PDF text is exactly as long as all pages together. */
  lemma {:induction false} FlattenLength(parts: seq<string>)
    ensures |Flatten(parts)| == TotalLength(parts)
  {
    if parts != [] {
      FlattenLength(parts[..|parts| - 1]);
    }
  }

  /** Page `i` sits, unchanged, right after all earlier pages. */
  lemma PageAt(pages: seq<string>, i: nat)
    requires i < |pages|
    ensures var start := TotalLength(pages[..i]);
            start + |pages[i]| <= |Flatten(pages)| &&
            Flatten(pages)[start..start + |pages[i]|] == pages[i]
  {
    assert pages == pages[..i] + [pages[i]] + pages[i + 1..];
    FlattenAppend(pages[..i] + [pages[i]], pages[i + 1..]);
    FlattenAppend(pages[..i], [pages[i]]);
    assert Flatten([pages[i]]) == pages[i] by {
      assert [pages[i]][..0] == [];
    }
    FlattenLength(pages[..i]);
  }

  lemma TerminatedAppend(a: seq<string>, b: seq<string>)
    ensures Terminated(a + b) == Terminated(a) + Terminated(b)
  {
  }

  /** The extracted DOCX text is as long as all paragraphs plus one newline each. */
  lemma {:induction false} DocxLength(paragraphs: seq<string>)
    ensures |Flatten(Terminated(paragraphs))| == TotalLength(paragraphs) + |paragraphs|
  {
    if paragraphs != [] {
      var n := |paragraphs| - 1;
      assert paragraphs == paragraphs[..n] + [paragraphs[n]];
      TerminatedAppend(paragraphs[..n], [paragraphs[n]]);
      FlattenAppend(Terminated(paragraphs[..n]), Terminated([paragraphs[n]]));
      assert Flatten(Terminated([paragraphs[n]])) == paragraphs[n] + "\n" by {
        assert Terminated([paragraphs[n]])[..0] == [];
      }
      DocxLength(paragraphs[..n]);
    }
  }

  /** Paragraph `i` sits right after the earlier paragraphs and their
      newlines, and is followed by one newline; an empty paragraph thus
      contributes just "\n". */
  lemma ParagraphAt(paragraphs: seq<string>, i: nat)
    requires i < |paragraphs|
    ensures var text := Flatten(Terminated(paragraphs));
            var start := TotalLength(paragraphs[..i]) + i;
            start + |paragraphs[i]| < |text| &&
            text[start..start + |paragraphs[i]|] == paragraphs[i] &&
            text[start + |paragraphs[i]|] == '\n'
  {
    var t := Terminated(paragraphs);
    assert paragraphs == paragraphs[..i] + [paragraphs[i]] + paragraphs[i + 1..];
    TerminatedAppend(paragraphs[..i] + [paragraphs[i]], paragraphs[i + 1..]);
    TerminatedAppend(paragraphs[..i], [paragraphs[i]]);
    FlattenAppend(Terminated(paragraphs[..i]) + Terminated([paragraphs[i]]), Terminated(paragraphs[i + 1..]));
    FlattenAppend(Terminated(paragraphs[..i]), Terminated([paragraphs[i]]));
    assert Flatten(Terminated([paragraphs[i]])) == paragraphs[i] + "\n" by {
      assert Terminated([paragraphs[i]])[..0] == [];
    }
    DocxLength(paragraphs[..i]);
  }
}
