/** The benchmark module's check (`BenchmarkCheck`): the quality rule it
    applies to the histogram called "example" and the colours it paints the
    histogram with afterwards.

    The configured busy-wait (`spinsleep(mDuration)`) and the `configure`
    step that reads its duration only spend time, so they are not modelled.
 */
module Benchmark {
  import opened Wrappers
  import opened Qualities
  import opened Objects

  /** The short name of the only monitor object the check looks at. */
  const ExampleName: string := "example"

  /** `getAcceptedType()`. */
  const AcceptedType: string := "TH1"

  /** What the scan reads: `GetBinContent(i)` for `0 <= i < GetNbinsX()`.
      ROOT's bin 0 is the underflow bin, so the scan starts there and stops
      before the last regular bin. */
  function Scanned(h: Histogram): (s: seq<real>)
    ensures |s| == NBinsX(h)
    ensures forall i :: 0 <= i < |s| ==> s[i] == BinContent(h, i)
  {
    seq(NBinsX(h), i requires 0 <= i < NBinsX(h) => BinContent(h, i))
  }

  /** Some scanned index below `n` from 1 to 7 holds an empty bin. */
  predicate GapBefore(s: seq<real>, n: nat) {
    exists i :: 0 < i < 8 && i < n && i < |s| && s[i] == 0.0
  }

  /** Some scanned index below `n` that is 0 or above 7 holds a filled bin. */
  predicate SpillBefore(s: seq<real>, n: nat) {
    exists i :: 0 <= i < n && i < |s| && (i == 0 || i > 7) && s[i] > 0.0
  }

  /** The rule, stated without the scan: an empty bin among indices 1 to 7
      is Bad; otherwise a filled bin at index 0 or beyond 7 is Medium;
      otherwise Good. */
  function Classification(s: seq<real>): Quality {
    if GapBefore(s, |s|) then Bad
    else if SpillBefore(s, |s|) then Medium
    else Good
  }

  /** The scan of one "example" histogram: it starts from Good, marks Medium
      on a filled bin outside indices 1 to 7 and stops at the first empty bin
      among them with Bad. */
  method ClassifyHistogram(h: Histogram) returns (q: Quality)
    ensures q == Classification(Scanned(h))
  {
    q := Good;
    var i := 0;
    while i < NBinsX(h)
      invariant 0 <= i <= NBinsX(h)
      invariant !GapBefore(Scanned(h), i)
      invariant q == if SpillBefore(Scanned(h), i) then Medium else Good
    {
      var content := BinContent(h, i);
      assert content == Scanned(h)[i];
      if i > 0 && i < 8 && content == 0.0 {
        q := Bad;
        break;
      } else if (i == 0 || i > 7) && content > 0.0 {
        q := Medium;
      }
      i := i + 1;
    }
  }

  /** The position of the last object named "example", or -1 if none is. */
  function LastExample(entries: seq<MonitorObject>): (k: int)
    ensures -1 <= k < |entries|
    ensures k >= 0 ==> entries[k].name == ExampleName
    ensures k >= 0 ==> forall k' :: k < k' < |entries| ==> entries[k'].name != ExampleName
    ensures k < 0 ==> forall k' :: 0 <= k' < |entries| ==> entries[k'].name != ExampleName
    decreases |entries|
  {
    if entries == [] then -1
    else if entries[|entries| - 1].name == ExampleName then |entries| - 1
    else LastExample(entries[..|entries| - 1])
  }

  /** `check(moMap)`, with the map's entries given in its iteration order.
      Every object named "example" resets the verdict and is classified, so
      the last one decides; with none the verdict is Null. */
  method Check(entries: seq<MonitorObject>) returns (q: Quality)
    ensures LastExample(entries) < 0 ==> q == Null
    ensures LastExample(entries) >= 0 ==> q == Classification(Scanned(entries[LastExample(entries)].histogram))
  {
    q := Null;
    var i := 0;
    while i < |entries|
      invariant 0 <= i <= |entries|
      invariant LastExample(entries[..i]) < 0 ==> q == Null
      invariant LastExample(entries[..i]) >= 0 ==>
                  q == Classification(Scanned(entries[LastExample(entries[..i])].histogram))
    {
      assert entries[..i + 1][..i] == entries[..i];
      if entries[i].name == ExampleName {
        q := ClassifyHistogram(entries[i].histogram);
      }
      i := i + 1;
    }
    assert entries[..i] == entries;
  }

  /** The verdict the underflow bin alone decides: with no empty bin among
      indices 1 to 7, a filled underflow bin makes the histogram Medium. */
  lemma UnderflowCounts(h: Histogram)
    requires NBinsX(h) > 0 && h.underflow > 0.0
    requires !GapBefore(Scanned(h), NBinsX(h))
    ensures Classification(Scanned(h)) == Medium
  {
    assert Scanned(h)[0] == h.underflow;
  }

  /** The last regular bin is never read, so its content has no influence. */
  lemma LastBinIgnored(h: Histogram, x: real)
    requires NBinsX(h) > 0
    ensures Classification(Scanned(h.(regular := h.regular[NBinsX(h) - 1 := x]))) == Classification(Scanned(h))
  {
    var h' := h.(regular := h.regular[NBinsX(h) - 1 := x]);
    assert forall i :: 0 <= i < NBinsX(h) ==> Scanned(h')[i] == Scanned(h)[i];
    assert Scanned(h') == Scanned(h);
  }

  /** `beautify(mo, checkResult)`: only the "example" histogram is painted.
      Its fill shows the verdict (green, red, orange), a Null verdict leaves
      the fill as it was, and its line is always black. Nothing else about
      the object changes. */
  function Beautify(mo: MonitorObject, q: Quality): (r: MonitorObject)
    ensures mo.name != ExampleName ==> r == mo
    ensures mo.name == ExampleName ==>
              r == mo.(histogram := mo.histogram.(fillColor := r.histogram.fillColor, lineColor := Black))
    ensures mo.name == ExampleName ==>
              && (q == Good ==> r.histogram.fillColor == Green)
              && (q == Bad ==> r.histogram.fillColor == Red)
              && (q == Medium ==> r.histogram.fillColor == Orange)
              && (q == Null ==> r.histogram.fillColor == mo.histogram.fillColor)
  {
    if mo.name != ExampleName then mo
    else
      var h := mo.histogram;
      var fill := if q == Good then Green else if q == Bad then Red else if q == Medium then Orange else h.fillColor;
      mo.(histogram := h.(fillColor := fill, lineColor := Black))
  }

  /** Reading a verdict back from a fill colour. */
  function VerdictShown(c: Color): Option<Quality> {
    match c
    case Green => Some(Good)
    case Red => Some(Bad)
    case Orange => Some(Medium)
    case _ => None
  }

  /** A painted "example" histogram shows the last definite verdict it was
      painted with: the colour gives the verdict back, and a Null verdict
      keeps whatever the histogram showed before. */
  lemma {:induction false} BeautifyShowsVerdict(mo: MonitorObject, p: Quality, q: Quality)
    requires mo.name == ExampleName
    ensures q != Null ==> VerdictShown(Beautify(Beautify(mo, p), q).histogram.fillColor) == Some(q)
    ensures q == Null ==> Beautify(Beautify(mo, p), q) == Beautify(mo, p)
  {
    var once := Beautify(mo, p);
    assert once.name == ExampleName;
  }

  /** Painting twice with the same verdict is painting once. */
  lemma BeautifyIdempotent(mo: MonitorObject, q: Quality)
    ensures Beautify(Beautify(mo, q), q) == Beautify(mo, q)
  {
  }
}
