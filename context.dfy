/** Context assembly in `history_aware_retriever` (api/langchain_utils.py):
    the retrieved documents' page contents joined with a blank line. */
module Context {

  /** A retrieved document; its metadata is not read here. */
  datatype Document = Document(pageContent: string)

  /** The separator between two documents: one blank line. */
  const Separator: string := "\n\n"

  /** Python's `sep.join(parts)`: the parts in order, with `sep` between each
      two neighbours and nowhere else. */
  function Join(sep: string, parts: seq<string>): (r: string)
    ensures parts != [] ==> |r| + |sep| == Span(sep, parts)
  {
    if parts == [] then ""
    else if |parts| == 1 then parts[0]
    else parts[0] + sep + Join(sep, parts[1..])
  }

  /** The room the parts take when each is followed by one separator; the
      start of part i in the joined string is Span(sep, parts[..i]). */
  function Span(sep: string, parts: seq<string>): nat
  {
    if parts == [] then 0 else |parts[0]| + |sep| + Span(sep, parts[1..])
  }

  lemma {:induction false} SpanAppend(sep: string, a: seq<string>, b: seq<string>)
    ensures Span(sep, a + b) == Span(sep, a) + Span(sep, b)
  {
    if a == [] {
      assert a + b == b;
    } else {
      assert (a + b)[1..] == a[1..] + b;
      SpanAppend(sep, a[1..], b);
    }
  }

  /** Slicing the part that follows a known prefix. */
  lemma SliceAfter(a: string, b: string, lo: nat, hi: nat)
    requires lo <= hi <= |b|
    ensures (a + b)[|a| + lo .. |a| + hi] == b[lo..hi]
  {
  }

  /** Independent description of the joined string, position by position:
      part i stands at offset Span(sep, parts[..i]), and every part but the
      last is followed by exactly one separator. With the length stated by
      Join's contract this accounts for every character of the result. */
  lemma {:induction false} JoinAt(sep: string, parts: seq<string>, i: nat)
    requires i < |parts|
    ensures Span(sep, parts[..i]) + |parts[i]| <= |Join(sep, parts)|
    ensures Join(sep, parts)[Span(sep, parts[..i]) .. Span(sep, parts[..i]) + |parts[i]|] == parts[i]
    ensures i + 1 < |parts| ==>
      Span(sep, parts[..i]) + |parts[i]| + |sep| <= |Join(sep, parts)| &&
      Join(sep, parts)[Span(sep, parts[..i]) + |parts[i]| .. Span(sep, parts[..i]) + |parts[i]| + |sep|] == sep
  {
    var r := Join(sep, parts);
    if i == 0 {
      assert parts[..0] == [];
      if |parts| > 1 {
        assert r == parts[0] + (sep + Join(sep, parts[1..]));
        assert r[..|parts[0]|] == parts[0];
        assert r[|parts[0]| .. |parts[0]| + |sep|] == sep;
      }
    } else {
      var head := parts[0] + sep;
      var tail := parts[1..];
      assert r == head + Join(sep, tail);
      assert parts[..i] == [parts[0]] + tail[..i - 1];
      assert Span(sep, parts[..i]) == |head| + Span(sep, tail[..i - 1]);
      JoinAt(sep, tail, i - 1);
      var o := Span(sep, tail[..i - 1]);
      SliceAfter(head, Join(sep, tail), o, o + |tail[i - 1]|);
      if i + 1 < |parts| {
        SliceAfter(head, Join(sep, tail), o + |tail[i - 1]|, o + |tail[i - 1]| + |sep|);
      }
    }
  }

  /** No leading and no trailing separator: a non-empty join starts with the
      first part and ends with the last one. */
  lemma JoinBoundaries(sep: string, parts: seq<string>)
    requires parts != []
    ensures |parts[0]| <= |Join(sep, parts)|
    ensures Join(sep, parts)[..|parts[0]|] == parts[0]
    ensures |parts[|parts| - 1]| <= |Join(sep, parts)|
    ensures Join(sep, parts)[|Join(sep, parts)| - |parts[|parts| - 1]|..] == parts[|parts| - 1]
  {
    var n := |parts|;
    JoinAt(sep, parts, 0);
    assert parts[..0] == [];
    JoinAt(sep, parts, n - 1);
    assert parts == parts[..n - 1] + [parts[n - 1]];
    SpanAppend(sep, parts[..n - 1], [parts[n - 1]]);
  }

  /** The page contents of the documents, in retrieval order. */
  function PageContents(docs: seq<Document>): (cs: seq<string>)
    ensures |cs| == |docs|
    ensures forall i :: 0 <= i < |docs| ==> cs[i] == docs[i].pageContent
  {
    if docs == [] then [] else [docs[0].pageContent] + PageContents(docs[1..])
  }

  /** The `context` field: the documents' contents joined by a blank line. */
  function AssembleContext(docs: seq<Document>): (context: string)
    ensures docs == [] ==> context == ""
    ensures |docs| == 1 ==> context == docs[0].pageContent
    ensures docs != [] ==> |context| + |Separator| == Span(Separator, PageContents(docs))
  {
    Join(Separator, PageContents(docs))
  }

  /** Each document's content appears in the context, in retrieval order,
      and each but the last is followed by exactly one blank line. */
  lemma ContextAt(docs: seq<Document>, i: nat)
    requires i < |docs|
    ensures var o := Span(Separator, PageContents(docs)[..i]);
      var end := o + |docs[i].pageContent|;
      end <= |AssembleContext(docs)| &&
      AssembleContext(docs)[o .. end] == docs[i].pageContent &&
      (i + 1 < |docs| ==>
        (end + |Separator| <= |AssembleContext(docs)| &&
         AssembleContext(docs)[end .. end + |Separator|] == Separator))
  {
    JoinAt(Separator, PageContents(docs), i);
  }

  /** Two documents, as the retriever is configured to return: "A\n\nB". */
  lemma ContextOfTwo(a: string, b: string)
    ensures AssembleContext([Document(a), Document(b)]) == a + "\n\n" + b
  {
    assert PageContents([Document(a), Document(b)]) == [a, b];
    assert [a, b][1..] == [b];
    assert Join(Separator, [a, b]) == a + Separator + Join(Separator, [b]);
  }
}
