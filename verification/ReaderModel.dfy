/** `CScanResponseReader` as a state machine on values: reassembly, totals and progress. */
module ReaderModel {
  import opened Bytes
  import opened SaneApi
  import opened ServerModel

  /** What `sig_progress` carries: a percentage, or the result of dividing by zero. */
  datatype Progress = Percent(value: real) | Undefined

  datatype Reader = Reader(
    file: seq<byte>, parameters: Option<Parameters>, hundredPercent: nat, totalBytes: nat,
    inProgress: bool, progress: seq<Progress>)

  const FRAME_GRAY: int := 0
  const FRAME_RGB: int := 1

  /** Channels that arrive in frames of their own: three unless the format is grey or RGB. */
  function Frames(p: Parameters): nat {
    if p.format == FRAME_RGB || p.format == FRAME_GRAY then 1 else 3
  }

  /** The number of bytes the parameters announce. */
  function Announced(p: Parameters): int {
    p.bytesPerLine * p.lines * Frames(p)
  }

  /** The same product in the source's unsigned 64-bit arithmetic, each factor converted first. */
  function HundredPercent(p: Parameters): (h: nat)
    ensures h < WORD_LIMIT
  {
    var product := ((p.bytesPerLine % WORD_LIMIT) * (p.lines % WORD_LIMIT)) % WORD_LIMIT;
    (product * Frames(p)) % WORD_LIMIT
  }

  predicate IsSaneInt(x: int) {
    -0x8000_0000 <= x < 0x8000_0000
  }

  lemma ModTimes(a: int, b: int)
    ensures ((a % WORD_LIMIT) * (b % WORD_LIMIT)) % WORD_LIMIT == (a * b) % WORD_LIMIT
    ensures ((a % WORD_LIMIT) * b) % WORD_LIMIT == (a * b) % WORD_LIMIT
  {
    var x, y := a / WORD_LIMIT, b / WORD_LIMIT;
    var a', b' := a % WORD_LIMIT, b % WORD_LIMIT;
    assert a == WORD_LIMIT * x + a' && b == WORD_LIMIT * y + b';
    assert a * b == a' * b + WORD_LIMIT * (x * b);
    Multiples(a' * b, x * b);
    assert a' * b == a' * b' + WORD_LIMIT * (a' * y);
    Multiples(a' * b', a' * y);
  }

  lemma Multiples(a: int, k: int)
    ensures (a + WORD_LIMIT * k) % WORD_LIMIT == a % WORD_LIMIT
  {
  }

  /** One row of bytes per line, and one frame of them for a grey or RGB page, three for any other format. */
  lemma AnnouncedIs(p: Parameters)
    ensures Announced(p) == if p.format == 0 || p.format == 1 then p.bytesPerLine * p.lines
                            else 3 * (p.bytesPerLine * p.lines)
  {
    var product := p.bytesPerLine * p.lines;
    assert product * 1 == product && product * 3 == 3 * product;
  }

  /** The conversions to unsigned change the product by a multiple of 2^64 only... */
  lemma HundredPercentIsAnnounced(p: Parameters)
    ensures HundredPercent(p) == Announced(p) % WORD_LIMIT
  {
    ModTimes(p.bytesPerLine, p.lines);
    ModTimes(p.bytesPerLine * p.lines, Frames(p));
  }

  /** ...and so, for 32-bit sizes, exactly right unless exactly one size is negative (an unknown height is -1). */
  lemma HundredPercentNeverWraps(p: Parameters)
    requires IsSaneInt(p.bytesPerLine) && IsSaneInt(p.lines)
    ensures HundredPercent(p) == Announced(p) <==> p.bytesPerLine * p.lines >= 0
  {
    HundredPercentIsAnnounced(p);
    ProductBound(p.bytesPerLine, p.lines);
    SmallIsOwnRemainder(p.bytesPerLine * p.lines, Frames(p));
  }

  lemma SmallIsOwnRemainder(product: int, frames: nat)
    requires -0x4000_0000_0000_0000 <= product <= 0x4000_0000_0000_0000 && 1 <= frames <= 3
    ensures (product * frames) % WORD_LIMIT == product * frames <==> product >= 0
  {
    assert product * frames == if frames == 1 then product else if frames == 2 then 2 * product else 3 * product;
  }

  lemma ProductIsNonNegative(x: int, y: int)
    requires x >= 0 && y >= 0
    ensures x * y >= 0
  {
  }

  lemma ProductBound(x: int, y: int)
    requires IsSaneInt(x) && IsSaneInt(y)
    ensures -0x4000_0000_0000_0000 <= x * y <= 0x4000_0000_0000_0000
  {
    ProductIsNonNegative(0x8000_0000 - x, 0x8000_0000 + y);
    ProductIsNonNegative(0x8000_0000 + x, 0x8000_0000 - y);
    ProductIsNonNegative(0x8000_0000 - x, 0x8000_0000 - y);
    ProductIsNonNegative(0x8000_0000 + x, 0x8000_0000 + y);
    assert (0x8000_0000 - x) * (0x8000_0000 + y) == 0x4000_0000_0000_0000 + 0x8000_0000 * y - 0x8000_0000 * x - x * y;
    assert (0x8000_0000 + x) * (0x8000_0000 - y) == 0x4000_0000_0000_0000 - 0x8000_0000 * y + 0x8000_0000 * x - x * y;
    assert (0x8000_0000 - x) * (0x8000_0000 - y) == 0x4000_0000_0000_0000 - 0x8000_0000 * y - 0x8000_0000 * x + x * y;
    assert (0x8000_0000 + x) * (0x8000_0000 + y) == 0x4000_0000_0000_0000 + 0x8000_0000 * y + 0x8000_0000 * x + x * y;
  }

  function Scan(r: Reader): Reader {
    if r.inProgress then r
    else r.(file := [], hundredPercent := 0, totalBytes := 0, inProgress := true)
  }

  function ProgressOf(total: nat, hundred: nat): Progress {
    if hundred == 0 then Undefined else Percent(total as real * 100.0 / hundred as real)
  }

  function OnReadDone(r: Reader, m: Message): Reader {
    var withParameters :=
      if m.parameters.Some? then
        r.(parameters := m.parameters, hundredPercent := HundredPercent(m.parameters.value))
      else r;
    var withData :=
      if m.data.Some? then
        withParameters.(file := r.file + m.data.value, totalBytes := r.totalBytes + |m.data.value|)
      else withParameters;
    withData.(progress := r.progress + [ProgressOf(withData.totalBytes, withData.hundredPercent)])
  }

  function OnDone(r: Reader): Reader {
    r.(inProgress := false, hundredPercent := 0, totalBytes := 0)
  }
}
