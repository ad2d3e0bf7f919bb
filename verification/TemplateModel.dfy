/** The key:value;key:value notation of e-mail template models. */
module TemplateModel {
  import opened Texts

  /** A segment gives a pair when it holds one colon. */
  function PairOf(segment: string): seq<string> {
    var halves := Split(segment, ':');
    if |halves| == 2 then [TrimSpace(halves[0]), TrimSpace(halves[1])] else []
  }

  function PairsOf(segments: seq<string>): seq<string> {
    if segments == [] then [] else PairsOf(segments[..|segments| - 1]) + PairOf(segments[|segments| - 1])
  }

  /** Trimming the whole segment first makes no difference to the pair. */
  lemma TrimFirst(segment: string)
    ensures PairOf(TrimSpace(segment)) == PairOf(segment)
  {
    var halves := Split(segment, ':');
    JoinSplit(segment, ':');
    SplitFree(segment, ':');
    var t := TrimSpace(segment);
    var a, b := TrimSpaceSplits(segment);
    var inner := Split(t, ':');
    JoinSplit(t, ':');
    SplitFree(t, ':');
    PadSplit(a, t, b);
    var outer := Split(a + t + b, ':');
    if |inner| == 2 {
      TrimPadded(a, inner[0], "");
      TrimPadded("", inner[1], b);
    }
  }

  lemma TrimPadded(a: string, x: string, b: string)
    requires Blank(a) && Blank(b)
    ensures TrimSpace(a + x + b) == TrimSpace(x)
  {
    var a', b' := TrimSpaceSplits(x);
    var t := TrimSpace(x);
    assert a + x + b == (a + a') + t + (b' + b);
    TrimSpacePads(a + a', t, b' + b);
  }

  /** Blanks around a text end up in the first and the last part of its split. */
  lemma PadSplit(a: string, t: string, b: string)
    requires Blank(a) && Blank(b)
    ensures var inner, outer := Split(t, ':'), Split(a + t + b, ':');
            && |outer| == |inner|
            && (|inner| == 2 ==> outer[0] == a + inner[0] + "" && outer[1] == "" + inner[1] + b)
  {
    var inner := Split(t, ':');
    JoinSplit(t, ':');
    SplitFree(t, ':');
    var padded := Padded(inner, a, b);
    JoinPad(inner, a, b);
    forall i | 0 <= i < |padded| ensures FreeOf(padded[i], ':') {
      PaddedPartFree(inner, a, b, i);
    }
    SplitJoin(padded, ':');
    assert |inner| == 2 ==> a + inner[0] + "" == a + inner[0] && "" + inner[1] + b == inner[1] + b;
  }

  lemma PaddedPartFree(parts: seq<string>, a: string, b: string, i: nat)
    requires parts != [] && Blank(a) && Blank(b) && i < |Padded(parts, a, b)|
    requires forall j :: 0 <= j < |parts| ==> FreeOf(parts[j], ':')
    ensures FreeOf(Padded(parts, a, b)[i], ':')
  {
    assert !IsSpace(':');
    assert |Padded(parts, a, b)| == |parts|;
    assert FreeOf(parts[i], ':') && FreeOf(a, ':') && FreeOf(b, ':');
    if 0 < i < |parts| - 1 {
      assert Padded(parts, a, b)[i] == parts[i];
    }
  }

  /** The parts with a before the first and b after the last. */
  function Padded(parts: seq<string>, a: string, b: string): seq<string>
    requires parts != []
  {
    if |parts| == 1 then [a + parts[0] + b]
    else [a + parts[0]] + parts[1..|parts| - 1] + [parts[|parts| - 1] + b]
  }

  lemma {:induction false} JoinPad(parts: seq<string>, a: string, b: string)
    requires parts != []
    ensures Join(Padded(parts, a, b), ':') == a + Join(parts, ':') + b
  {
    if |parts| > 1 {
      var tail := parts[1..];
      JoinLast(tail, b);
      var padded := Padded(parts, a, b);
      assert padded[1..] == tail[..|tail| - 1] + [tail[|tail| - 1] + b];
      assert padded[0] == a + parts[0] && |padded| == |parts|;
      calc {
        Join(padded, ':');
        padded[0] + [':'] + Join(padded[1..], ':');
        (a + parts[0]) + [':'] + (Join(tail, ':') + b);
        a + (parts[0] + [':'] + Join(tail, ':')) + b;
        a + Join(parts, ':') + b;
      }
    }
  }

  lemma {:induction false} JoinLast(parts: seq<string>, b: string)
    requires parts != []
    ensures Join(parts[..|parts| - 1] + [parts[|parts| - 1] + b], ':') == Join(parts, ':') + b
  {
    var padded := parts[..|parts| - 1] + [parts[|parts| - 1] + b];
    if |parts| > 1 {
      var tail := parts[1..];
      JoinLast(tail, b);
      assert padded[1..] == tail[..|tail| - 1] + [tail[|tail| - 1] + b];
      assert padded[0] == parts[0];
    }
  }

  /** Even length, trimmed and free of both separators. */
  ghost predicate CleanList(out: seq<string>) {
    |out| % 2 == 0 && forall i :: 0 <= i < |out| ==> Clean(out[i])
  }

  predicate Clean(s: string) {
    Trimmed(s) && FreeOf(s, ':') && FreeOf(s, ';')
  }

  lemma TrimClean(s: string)
    requires FreeOf(s, ':') && FreeOf(s, ';')
    ensures Clean(TrimSpace(s))
  {
    var a, b := TrimSpaceSplits(s);
    var t := TrimSpace(s);
    forall i | 0 <= i < |t| ensures t[i] != ':' && t[i] != ';' {
      assert t[i] == s[|a| + i];
    }
  }

  lemma PairClean(segment: string)
    requires FreeOf(segment, ';')
    ensures CleanList(PairOf(segment))
  {
    var halves := Split(segment, ':');
    SplitFree(segment, ':');
    JoinSplit(segment, ':');
    if |halves| == 2 {
      var x, y := halves[0], halves[1];
      assert segment == x + [':'] + y;
      forall i | 0 <= i < |x| ensures x[i] != ';' {
        assert x[i] == segment[i];
      }
      forall i | 0 <= i < |y| ensures y[i] != ';' {
        assert y[i] == segment[|x| + 1 + i];
      }
      TrimClean(x);
      TrimClean(y);
    }
  }

  /** What the loop appends for a segment it has trimmed. */
  lemma SegmentResult(segment: string)
    ensures var tmp := Split(TrimSpace(segment), ':');
            PairOf(segment) == if |tmp| == 2 then [TrimSpace(tmp[0]), TrimSpace(tmp[1])] else []
  {
    TrimFirst(segment);
  }

  method StrArrHTMLModel(s: string) returns (out: seq<string>)
    ensures out == PairsOf(Split(s, ';'))
    ensures CleanList(out)
  {
    out := [];
    var in_ := Split(s, ';');
    ghost var segments := in_;
    for i := 0 to |in_|
      invariant |in_| == |segments| && forall j :: i <= j < |in_| ==> in_[j] == segments[j]
      invariant out == PairsOf(segments[..i])
    {
      SegmentResult(segments[i]);
      PairsOfSnoc(segments, i);
      ghost var before := out;
      in_ := in_[i := TrimSpace(in_[i])];
      var tmp := Split(in_[i], ':');
      if |tmp| == 2 {
        tmp := tmp[0 := TrimSpace(tmp[0])];
        tmp := tmp[1 := TrimSpace(tmp[1])];
        out := out + [tmp[0]];
        out := out + [tmp[1]];
      }
      assert out == before + PairOf(segments[i]);
    }
    assert segments[..|segments|] == segments;
    SplitFree(s, ';');
    PairsClean(segments);
  }

  lemma PairsOfSnoc(segments: seq<string>, i: nat)
    requires i < |segments|
    ensures PairsOf(segments[..i + 1]) == PairsOf(segments[..i]) + PairOf(segments[i])
  {
    assert segments[..i + 1][..i] == segments[..i];
  }

  lemma {:induction false} PairsClean(segments: seq<string>)
    requires forall i :: 0 <= i < |segments| ==> FreeOf(segments[i], ';')
    ensures CleanList(PairsOf(segments))
  {
    if segments != [] {
      var init, last := segments[..|segments| - 1], segments[|segments| - 1];
      PairsClean(init);
      PairClean(last);
      var a, b := PairsOf(init), PairOf(last);
      forall i | 0 <= i < |a + b| ensures Clean((a + b)[i]) {
        assert (a + b)[i] == if i < |a| then a[i] else b[i - |a|];
      }
    }
  }

  /** The model after the first n pairs. */
  function ModelOf(list: seq<string>, n: nat): map<string, string>
    requires 2 * n <= |list|
  {
    if n == 0 then map[] else ModelOf(list, n - 1)[list[2 * n - 2] := list[2 * n - 1]]
  }

  method HTMLModel(list: seq<string>) returns (model: map<string, string>)
    requires |list| % 2 == 0
    ensures model == ModelOf(list, |list| / 2)
  {
    model := map[];
    var i := 0;
    while i < |list|
      invariant 0 <= i <= |list| && i % 2 == 0
      invariant model == ModelOf(list, i / 2)
    {
      model := model[list[i] := list[i + 1]];
      i := i + 2;
    }
  }

  /** The keys of the model are the keys listed, and each maps to the value of its last occurrence. */
  lemma {:induction false} LastValueWins(list: seq<string>, n: nat, k: string) returns (j: nat)
    requires 2 * n <= |list|
    ensures k in ModelOf(list, n) <==> exists m :: 0 <= m < n && list[2 * m] == k
    ensures k in ModelOf(list, n) ==>
              && j < n && list[2 * j] == k && ModelOf(list, n)[k] == list[2 * j + 1]
              && forall m :: j < m < n ==> list[2 * m] != k
  {
    j := 0;
    if n > 0 {
      if list[2 * (n - 1)] == k {
        j := n - 1;
      } else {
        j := LastValueWins(list, n - 1, k);
      }
    }
  }

  // ---- Round trip ----------------------------------------------------------

  /** A pair and the blanks written around its two halves. */
  datatype Pair = Pair(key: string, value: string, pads: (string, string, string, string))

  predicate Writable(p: Pair) {
    Clean(p.key) && Clean(p.value) && Blank(p.pads.0) && Blank(p.pads.1) && Blank(p.pads.2) && Blank(p.pads.3)
  }

  function Segment(p: Pair): string {
    (p.pads.0 + p.key + p.pads.1) + [':'] + (p.pads.2 + p.value + p.pads.3)
  }

  function Segments(ps: seq<Pair>): seq<string> {
    seq(|ps|, i requires 0 <= i < |ps| => Segment(ps[i]))
  }

  function Flat(ps: seq<Pair>): seq<string> {
    if ps == [] then [] else Flat(ps[..|ps| - 1]) + [ps[|ps| - 1].key, ps[|ps| - 1].value]
  }

  lemma PaddedFree(a: string, t: string, b: string)
    requires Blank(a) && Blank(b) && Clean(t)
    ensures FreeOf(a + t + b, ':') && FreeOf(a + t + b, ';')
  {
    var s := a + t + b;
    forall i | 0 <= i < |s| ensures s[i] != ':' && s[i] != ';' {
      assert s[i] == if i < |a| then a[i] else if i < |a| + |t| then t[i - |a|] else b[i - |a| - |t|];
      assert !IsSpace(':') && !IsSpace(';');
    }
  }

  lemma SegmentPair(p: Pair)
    requires Writable(p)
    ensures PairOf(Segment(p)) == [p.key, p.value] && FreeOf(Segment(p), ';')
  {
    var left, right := p.pads.0 + p.key + p.pads.1, p.pads.2 + p.value + p.pads.3;
    PaddedFree(p.pads.0, p.key, p.pads.1);
    PaddedFree(p.pads.2, p.value, p.pads.3);
    SplitOne(left, ':', right);
    SplitOne(right, ':', "");
    TrimSpacePads(p.pads.0, p.key, p.pads.1);
    TrimSpacePads(p.pads.2, p.value, p.pads.3);
  }

  lemma {:induction false} PairsOfSegments(ps: seq<Pair>)
    requires forall i :: 0 <= i < |ps| ==> Writable(ps[i])
    ensures PairsOf(Segments(ps)) == Flat(ps)
  {
    if ps != [] {
      PairsOfSegments(ps[..|ps| - 1]);
      assert Segments(ps)[..|ps| - 1] == Segments(ps[..|ps| - 1]);
      SegmentPair(ps[|ps| - 1]);
    }
  }

  /** Any list of clean pairs, written with any blanks around keys and values, is read back. */
  lemma WrittenPairsAreReadBack(ps: seq<Pair>)
    requires forall i :: 0 <= i < |ps| ==> Writable(ps[i])
    ensures PairsOf(Split(Join(Segments(ps), ';'), ';')) == Flat(ps)
  {
    if ps == [] {
      assert Segments(ps) == [];
      assert Split("", ';') == [""];
      assert [""][..0] == [];
      assert PairsOf([""]) == [];
    } else {
      forall i | 0 <= i < |ps| ensures FreeOf(Segments(ps)[i], ';') {
        SegmentPair(ps[i]);
      }
      SplitJoin(Segments(ps), ';');
      PairsOfSegments(ps);
    }
  }
}
