/** The slice of the data-processing layer's vocabulary the model needs:
    input and output specifications and the fixed-width data description.
 */
module Framework {
  import Text

  /** Width of `o2::header::DataDescription` (a 16-character descriptor). */
  const DescriptionSize: nat := 16

  /** The data origin every QC component publishes under. */
  const QcOrigin: string := "QC"

  /** A data description. `Literal` is one built by the modelled code; the
      other two stand for the descriptions that `Check::createCheckerDataDescription`
      and `TaskRunner::createTaskDataDescription` build, which are not part of
      this model and are kept symbolic, by the name they are built from. */
  datatype Description =
    | Literal(text: string)
    | CheckerDescription(checkName: string)
    | TaskDescription(taskName: string)

  /** `framework::InputSpec`: the binding name an input is fetched by, and what it matches. */
  datatype InputSpec = InputSpec(binding: string, origin: string, description: Description, subSpec: nat)

  /** `framework::OutputSpec`. */
  datatype OutputSpec = OutputSpec(binding: string, origin: string, description: Description)

  /** The shared naming rule of the alarm and check-runner data descriptions:
      the first `DescriptionSize - 4` characters of the name followed by
      `"-chk"`. The result always fits the descriptor, so `runtimeInit`
      stores it unchanged. */
  function TruncatedDescription(name: string): (r: string)
    ensures |r| <= DescriptionSize
    ensures |r| >= 4 && r[|r| - 4..] == "-chk"
    ensures r[..|r| - 4] <= name
    ensures |r| - 4 == if |name| < DescriptionSize - 4 then |name| else DescriptionSize - 4
  {
    var head := Text.Take(name, DescriptionSize - 4);
    var r := head + "-chk";
    assert r[..|r| - 4] == head;
    r
  }
}

/** The QC data objects that cross component boundaries: quality objects
    (a check's verdict) and monitor objects (a published histogram). */
module Objects {
  import opened Qualities

  /** `core::QualityObject`, reduced to the quality it carries. */
  datatype QualityObject = QualityObject(quality: Quality)

  /** The ROOT colours the model sets. `Unset` is whatever a histogram had before. */
  datatype Color = Unset | Green | Red | Orange | Black

  /** A one-dimensional ROOT histogram: the underflow bin, the regular bins
      (`GetNbinsX()` of them) and the overflow bin. Contents are doubles;
      NaN is not modelled. */
  datatype Histogram = Histogram(underflow: real, regular: seq<real>, overflow: real,
                                 fillColor: Color, lineColor: Color)

  function NBinsX(h: Histogram): nat {
    |h.regular|
  }

  /** `GetBinContent(i)`: ROOT numbers the underflow bin 0, the regular bins
      1 to `NBinsX(h)` and the overflow bin `NBinsX(h) + 1`. */
  function BinContent(h: Histogram, i: nat): (c: real)
    ensures i == 0 ==> c == h.underflow
    ensures 1 <= i <= NBinsX(h) ==> c == h.regular[i - 1]
    ensures i > NBinsX(h) ==> c == h.overflow
  {
    if i == 0 then h.underflow
    else if i <= |h.regular| then h.regular[i - 1]
    else h.overflow
  }

  /** `core::MonitorObject`: its full name (the key it is stored under), its
      short name, and the histogram it wraps. */
  datatype MonitorObject = MonitorObject(fullName: string, name: string, histogram: Histogram)
}
