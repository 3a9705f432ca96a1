/**
 The session file as bytes: one page's record, the length-framed list of records, and the header before it.
 Sizes and addresses are 64 bits wide.  Where the source would read past the end of its data, or form an
 address beyond 2^64, its behaviour is undefined and so is the outcome here.
 */
module SessionModel {
  import opened Bytes

  const MATRIX_BYTES: nat := 72
  const ITEM_PREFIX: nat := 88

  /** `SImageItemSerialized`; the nine doubles of the matrix are opaque words. */
  datatype Record = Record(matrix: seq<byte>, page: nat, path: seq<byte>)

  /** What the field types guarantee of every record in memory. */
  predicate Storable(r: Record) {
    |r.matrix| == MATRIX_BYTES && r.page < WORD_LIMIT && ITEM_PREFIX + |r.path| < WORD_LIMIT
  }

  predicate AllStorable(rs: seq<Record>) {
    forall i :: 0 <= i < |rs| ==> Storable(rs[i])
  }

  function Encode(r: Record): (body: seq<byte>)
    requires Storable(r)
    ensures |body| == ITEM_PREFIX + |r.path|
  {
    r.matrix + WordBytes(r.page) + WordBytes(|r.path|) + r.path
  }

  datatype Decoded = Item(record: Record) | Dropped | Astray

  /** `deserialize` on the bytes `body`, which start at the address `base`. */
  function Decode(base: nat, body: seq<byte>): Decoded {
    if |body| < ITEM_PREFIX then Dropped else
    var pathSize := WordAt(body, MATRIX_BYTES + WORD_BYTES);
    if base + ITEM_PREFIX + pathSize >= WORD_LIMIT then Astray
    else if ITEM_PREFIX + pathSize > |body| then Dropped
    else Item(Record(body[..MATRIX_BYTES], WordAt(body, MATRIX_BYTES), body[ITEM_PREFIX..ITEM_PREFIX + pathSize]))
  }

  function Frame(body: seq<byte>): seq<byte>
    requires |body| < WORD_LIMIT
  {
    WordBytes(|body|) + body
  }

  function EncodeAll(rs: seq<Record>): seq<byte>
    requires AllStorable(rs)
  {
    if rs == [] then [] else Frame(Encode(rs[0])) + EncodeAll(rs[1..])
  }

  /** The bytes one record takes with its length word, and those of a list. */
  function Size(r: Record): nat {
    WORD_BYTES + ITEM_PREFIX + |r.path|
  }

  function TotalSize(rs: seq<Record>): nat {
    if rs == [] then 0 else Size(rs[0]) + TotalSize(rs[1..])
  }

  lemma {:induction false} EncodedSize(rs: seq<Record>)
    requires AllStorable(rs)
    ensures |EncodeAll(rs)| == TotalSize(rs)
  {
    if rs != [] {
      EncodedSize(rs[1..]);
    }
  }

  /** Pages whose encoding can be held in memory. */
  predicate Fits(rs: seq<Record>) {
    AllStorable(rs) && |EncodeAll(rs)| < WORD_LIMIT
  }

  datatype Outcome = Parsed(records: seq<Record>) | Rejected | Undefined

  function Prepend(rs: seq<Record>, o: Outcome): Outcome {
    if o.Parsed? then Parsed(rs + o.records) else o
  }

  /** What a frame with such a body, and what comes after it, make together. */
  function FrameOutcome(decoded: Decoded, later: Outcome): Outcome {
    match decoded
    case Astray => Undefined
    case Dropped => later
    case Item(r) => Prepend([r], later)
  }

  /** `deserialize_items` on bytes that start at the address `base`. */
  function Parse(base: nat, data: seq<byte>): Outcome
    decreases |data|
  {
    if data == [] then Parsed([])
    else if |data| < WORD_BYTES then Undefined
    else
      var length := WordAt(data, 0);
      var next := WORD_BYTES + length;
      if base + next >= WORD_LIMIT then Undefined
      else if next > |data| then Rejected
      else FrameOutcome(Decode(base + WORD_BYTES, data[WORD_BYTES..next]), Parse(base + next, data[next..]))
  }

  lemma PrependTwice(xs: seq<Record>, ys: seq<Record>, o: Outcome)
    ensures Prepend(xs, Prepend(ys, o)) == Prepend(xs + ys, o)
  {
    if o.Parsed? {
      assert xs + (ys + o.records) == xs + ys + o.records;
    }
  }

  /** One turn of the parser at position `start`, in terms of the whole data. */
  lemma ParseTurn(base: nat, data: seq<byte>, start: nat)
    requires start + WORD_BYTES <= |data|
    ensures Parse(base + start, data[start..]) ==
            var itemStart := start + WORD_BYTES;
            var itemEnd := itemStart + WordAt(data, start);
            if base + itemEnd >= WORD_LIMIT then Undefined
            else if itemEnd > |data| then Rejected
            else FrameOutcome(Decode(base + itemStart, data[itemStart..itemEnd]),
                              Parse(base + itemEnd, data[itemEnd..]))
  {
    var rest := data[start..];
    assert data[start..start + WORD_BYTES] == rest[0..WORD_BYTES];
    var length := WordAt(data, start);
    if start + WORD_BYTES + length <= |data| {
      assert data[start + WORD_BYTES..start + WORD_BYTES + length] == rest[WORD_BYTES..WORD_BYTES + length];
      assert data[start + WORD_BYTES + length..] == rest[WORD_BYTES + length..];
    }
  }

  /** Bytes that lie in memory. */
  predicate InMemory(base: nat, data: seq<byte>) {
    base + |data| < WORD_LIMIT
  }

  lemma DecodeEncoded(base: nat, r: Record)
    requires Storable(r) && InMemory(base, Encode(r))
    ensures Decode(base, Encode(r)) == Item(r)
  {
    var body := Encode(r);
    assert body[MATRIX_BYTES..MATRIX_BYTES + WORD_BYTES] == WordBytes(r.page);
    assert body[MATRIX_BYTES + WORD_BYTES..ITEM_PREFIX] == WordBytes(|r.path|);
    WordRoundTrip(body, MATRIX_BYTES, r.page);
    WordRoundTrip(body, MATRIX_BYTES + WORD_BYTES, |r.path|);
    assert body[..MATRIX_BYTES] == r.matrix && body[ITEM_PREFIX..] == r.path;
  }

  /** The parser takes one frame off the front, whatever its body holds. */
  lemma ParseFrame(base: nat, body: seq<byte>, rest: seq<byte>)
    requires |body| < WORD_LIMIT && InMemory(base, Frame(body) + rest)
    ensures Parse(base, Frame(body) + rest) ==
            FrameOutcome(Decode(base + WORD_BYTES, body), Parse(base + |Frame(body)|, rest))
  {
    var data := Frame(body) + rest;
    assert data[0..WORD_BYTES] == WordBytes(|body|);
    WordRoundTrip(data, 0, |body|);
    assert data[WORD_BYTES..WORD_BYTES + |body|] == body && data[WORD_BYTES + |body|..] == rest;
  }

  lemma ParseRecord(base: nat, r: Record, rest: seq<byte>)
    requires Storable(r) && InMemory(base, Frame(Encode(r)) + rest)
    ensures Parse(base, Frame(Encode(r)) + rest) == Prepend([r], Parse(base + |Frame(Encode(r))|, rest))
  {
    ParseFrame(base, Encode(r), rest);
    DecodeEncoded(base + WORD_BYTES, r);
  }

  lemma Regroup(all: seq<byte>, first: seq<byte>, others: seq<byte>, rest: seq<byte>)
    requires all == first + others
    ensures all + rest == first + (others + rest) && |all| == |first| + |others|
  {
  }

  lemma FirstAndOthers(rs: seq<Record>, rest: seq<byte>)
    requires AllStorable(rs) && rs != []
    ensures var first, others := Frame(Encode(rs[0])), EncodeAll(rs[1..]);
            && EncodeAll(rs) + rest == first + (others + rest) && |EncodeAll(rs)| == |first| + |others|
  {
    Regroup(EncodeAll(rs), Frame(Encode(rs[0])), EncodeAll(rs[1..]), rest);
  }

  /** The first frame is taken off; `later` is what the rest parses to. */
  lemma ParseFirst(base: nat, rs: seq<Record>, rest: seq<byte>) returns (next: nat, later: Outcome)
    requires AllStorable(rs) && rs != [] && InMemory(base, EncodeAll(rs) + rest)
    ensures next + |EncodeAll(rs[1..])| == base + |EncodeAll(rs)|
    ensures later == Parse(next, EncodeAll(rs[1..]) + rest)
    ensures Parse(base, EncodeAll(rs) + rest) == Prepend([rs[0]], later)
  {
    FirstAndOthers(rs, rest);
    ParseRecord(base, rs[0], EncodeAll(rs[1..]) + rest);
    next := base + |Frame(Encode(rs[0]))|;
    later := Parse(next, EncodeAll(rs[1..]) + rest);
  }

  /** Intact frames in front are parsed as they are, whatever comes after them. */
  lemma {:induction false} ParseAfterFrames(base: nat, rs: seq<Record>, rest: seq<byte>)
    requires AllStorable(rs) && InMemory(base, EncodeAll(rs) + rest)
    ensures Parse(base, EncodeAll(rs) + rest) == Prepend(rs, Parse(base + |EncodeAll(rs)|, rest))
    decreases |rs|
  {
    if rs == [] {
      assert EncodeAll(rs) + rest == rest;
      PrependNothing(Parse(base, rest));
    } else {
      var next, later := ParseFirst(base, rs, rest);
      ParseAfterFrames(next, rs[1..], rest);
      Chained(rs, later, Parse(base + |EncodeAll(rs)|, rest));
    }
  }

  lemma PrependNothing(o: Outcome)
    ensures Prepend([], o) == o
  {
  }

  lemma Chained(rs: seq<Record>, later: Outcome, o: Outcome)
    requires rs != [] && later == Prepend(rs[1..], o)
    ensures Prepend([rs[0]], later) == Prepend(rs, o)
  {
    PrependTwice([rs[0]], rs[1..], o);
    assert [rs[0]] + rs[1..] == rs;
  }

  /** Printing then parsing gives the list back, at any address. */
  lemma ParseEncoded(base: nat, rs: seq<Record>)
    requires AllStorable(rs) && InMemory(base, EncodeAll(rs))
    ensures Parse(base, EncodeAll(rs)) == Parsed(rs)
  {
    assert EncodeAll(rs) + [] == EncodeAll(rs);
    ParseAfterFrames(base, rs, []);
    assert rs + [] == rs;
  }

  lemma EncodingIsInjective(xs: seq<Record>, ys: seq<Record>)
    requires AllStorable(xs) && AllStorable(ys) && InMemory(0, EncodeAll(xs))
    requires EncodeAll(xs) == EncodeAll(ys)
    ensures xs == ys
  {
    ParseEncoded(0, xs);
    ParseEncoded(0, ys);
  }

  lemma DecodedFits(base: nat, body: seq<byte>)
    requires InMemory(base, body) && Decode(base, body).Item?
    ensures Storable(Decode(base, body).record) && Size(Decode(base, body).record) <= WORD_BYTES + |body|
  {
  }

  lemma PrependFits(r: Record, o: Outcome)
    requires Storable(r) && o.Parsed? && AllStorable(o.records)
    ensures var p := Prepend([r], o);
            p.Parsed? && AllStorable(p.records) && TotalSize(p.records) == Size(r) + TotalSize(o.records)
  {
    assert ([r] + o.records)[1..] == o.records;
  }

  /** Whatever bytes they came from, parsed pages can be saved again, in no more bytes. */
  lemma {:induction false} ParsedFits(base: nat, data: seq<byte>)
    requires InMemory(base, data) && Parse(base, data).Parsed?
    ensures AllStorable(Parse(base, data).records) && TotalSize(Parse(base, data).records) <= |data|
    decreases |data|
  {
    if data != [] {
      var next := WORD_BYTES + WordAt(data, 0);
      var decoded := Decode(base + WORD_BYTES, data[WORD_BYTES..next]);
      var later := Parse(base + next, data[next..]);
      ParsedFits(base + next, data[next..]);
      if decoded.Item? {
        DecodedFits(base + WORD_BYTES, data[WORD_BYTES..next]);
        PrependFits(decoded.record, later);
      }
    }
  }

  // ---- Damage ----

  lemma ParseDamaged(base: nat, body: seq<byte>, after: seq<Record>)
    requires AllStorable(after) && |body| < WORD_LIMIT && InMemory(base, Frame(body) + EncodeAll(after))
    ensures Parse(base, Frame(body) + EncodeAll(after)) == FrameOutcome(Decode(base + WORD_BYTES, body), Parsed(after))
  {
    ParseFrame(base, body, EncodeAll(after));
    ParseEncoded(base + |Frame(body)|, after);
  }

  /** Bytes overwritten inside one body touch that page only: it changes or is dropped, or the parser goes astray. */
  lemma DamageIsContained(base: nat, before: seq<Record>, body: seq<byte>, after: seq<Record>)
    requires AllStorable(before) && AllStorable(after) && |body| < WORD_LIMIT
    requires InMemory(base, EncodeAll(before) + (Frame(body) + EncodeAll(after)))
    ensures Parse(base, EncodeAll(before) + (Frame(body) + EncodeAll(after))) ==
            Prepend(before, FrameOutcome(Decode(base + |EncodeAll(before)| + WORD_BYTES, body), Parsed(after)))
  {
    ParseAfterFrames(base, before, Frame(body) + EncodeAll(after));
    ParseDamaged(base + |EncodeAll(before)|, body, after);
  }

  /** The three things that bytes in place of a page's body can decode to, by the path length they hold. */
  lemma DecodeCases(base: nat, body: seq<byte>)
    requires InMemory(base, body)
    ensures |body| < 88 ==> Decode(base, body) == Dropped
    ensures |body| >= 88 && base + 88 + WordAt(body, 80) >= 0x1_0000_0000_0000_0000 ==> Decode(base, body) == Astray
    ensures |body| >= 88 && base + 88 + WordAt(body, 80) < 0x1_0000_0000_0000_0000 && 88 + WordAt(body, 80) > |body| ==>
              Decode(base, body) == Dropped
    ensures |body| >= 88 && 88 + WordAt(body, 80) <= |body| ==>
              Decode(base, body) ==
              Item(Record(body[..72], WordAt(body, 72), body[88..88 + WordAt(body, 80)]))
  {
  }

  /**
   A session in which one page's bytes were overwritten, but not its length: the other pages are all there, in order.
   The damaged page is left out if its bytes are too few for the path length they hold, and otherwise stands in its
   place as those bytes describe it; only a length that leads out of the address space makes the outcome undefined.
   */
  lemma DamageExactly(base: nat, before: seq<Record>, body: seq<byte>, after: seq<Record>)
    requires AllStorable(before) && AllStorable(after) && |body| < WORD_LIMIT
    requires InMemory(base, EncodeAll(before) + (Frame(body) + EncodeAll(after)))
    ensures Parse(base, EncodeAll(before) + (Frame(body) + EncodeAll(after))) ==
            if |body| < 88 then Parsed(before + after)
            else
              var pathSize := WordAt(body, 80);
              if base + |EncodeAll(before)| + 8 + 88 + pathSize >= 0x1_0000_0000_0000_0000 then Undefined
              else if 88 + pathSize > |body| then Parsed(before + after)
              else Parsed(before + [Record(body[..72], WordAt(body, 72), body[88..88 + pathSize])] + after)
  {
    DamageIsContained(base, before, body, after);
    DecodeCases(base + |EncodeAll(before)| + WORD_BYTES, body);
    OutcomeOfItem(before, after, Decode(base + |EncodeAll(before)| + WORD_BYTES, body));
  }

  lemma OutcomeOfItem(before: seq<Record>, after: seq<Record>, decoded: Decoded)
    ensures Prepend(before, FrameOutcome(decoded, Parsed(after))) ==
            match decoded
            case Astray => Undefined
            case Dropped => Parsed(before + after)
            case Item(r) => Parsed(before + [r] + after)
  {
    if decoded.Item? {
      assert before + ([decoded.record] + after) == before + [decoded.record] + after;
    }
  }

  lemma ParseLength(base: nat, v: nat, rest: seq<byte>)
    requires v < WORD_LIMIT && v > |rest|
    ensures Parse(base, WordBytes(v) + rest) ==
            if base + 8 + v >= 0x1_0000_0000_0000_0000 then Undefined else Rejected
  {
    var data := WordBytes(v) + rest;
    assert data[0..WORD_BYTES] == WordBytes(v);
    WordRoundTrip(data, 0, v);
  }

  /**
   A length word that claims more than there is, whatever frames stand before it, loses the whole session: it is
   refused, or, when the claim leads out of the address space, the outcome is undefined.
   */
  lemma LengthDamaged(base: nat, before: seq<Record>, v: nat, rest: seq<byte>)
    requires AllStorable(before) && v < WORD_LIMIT && v > |rest|
    requires InMemory(base, EncodeAll(before) + (WordBytes(v) + rest))
    ensures Parse(base, EncodeAll(before) + (WordBytes(v) + rest)) ==
            if base + |EncodeAll(before)| + 8 + v >= 0x1_0000_0000_0000_0000 then Undefined else Rejected
  {
    ParseAfterFrames(base, before, WordBytes(v) + rest);
    ParseLength(base + |EncodeAll(before)|, v, rest);
  }

  /** When the damage spares the path length, the page survives with its number, matrix and path as now stored. */
  lemma DamagedPage(base: nat, r: Record, body: seq<byte>)
    requires Storable(r) && |body| == |Encode(r)| && InMemory(base, body)
    ensures var pathSize := WordAt(body, MATRIX_BYTES + WORD_BYTES);
            && (Decode(base, body).Astray? <==> pathSize >= WORD_LIMIT - base - ITEM_PREFIX)
            && (Decode(base, body).Item? <==> pathSize <= |r.path|)
            && (Decode(base, body).Item? ==> Storable(Decode(base, body).record))
    ensures body[80..88] == WordBytes(|r.path|) ==>
              Decode(base, body) == Item(Record(body[..72], WordAt(body, 72), body[88..]))
  {
    WordRoundTrip(body, MATRIX_BYTES + WORD_BYTES, |r.path|);
  }

  /** What a file cut off after `n` bytes parses to. */
  function CutOutcome(rs: seq<Record>, n: nat): Outcome
    requires n <= TotalSize(rs)
  {
    if n == 0 then Parsed([])
    else if n < WORD_BYTES then Undefined
    else if n < Size(rs[0]) then Rejected
    else Prepend([rs[0]], CutOutcome(rs[1..], n - Size(rs[0])))
  }

  /** A cut inside the first frame leaves no page. */
  lemma CutInside(base: nat, body: seq<byte>, rest: seq<byte>, n: nat)
    requires |body| < WORD_LIMIT && InMemory(base, Frame(body) + rest) && 0 < n < |Frame(body)|
    ensures Parse(base, (Frame(body) + rest)[..n]) == if n < WORD_BYTES then Undefined else Rejected
  {
    var data := (Frame(body) + rest)[..n];
    if n >= WORD_BYTES {
      assert data[0..WORD_BYTES] == WordBytes(|body|);
      WordRoundTrip(data, 0, |body|);
    }
  }

  lemma CutInsideFirst(base: nat, rs: seq<Record>, n: nat)
    requires AllStorable(rs) && InMemory(base, EncodeAll(rs)) && rs != [] && 0 < n < Size(rs[0])
    ensures n <= |EncodeAll(rs)|
    ensures Parse(base, EncodeAll(rs)[..n]) == if n < WORD_BYTES then Undefined else Rejected
  {
    CutInside(base, Encode(rs[0]), EncodeAll(rs[1..]), n);
  }

  /** The first frame leaves the others in memory behind it. */
  lemma OthersInMemory(base: nat, rs: seq<Record>)
    requires AllStorable(rs) && InMemory(base, EncodeAll(rs)) && rs != []
    ensures AllStorable(rs[1..]) && InMemory(base + Size(rs[0]), EncodeAll(rs[1..]))
  {
  }

  lemma {:induction false} CutAnywhere(base: nat, rs: seq<Record>, n: nat)
    requires AllStorable(rs) && InMemory(base, EncodeAll(rs)) && n <= TotalSize(rs)
    ensures n <= |EncodeAll(rs)| && Parse(base, EncodeAll(rs)[..n]) == CutOutcome(rs, n)
    decreases |rs|
  {
    EncodedSize(rs);
    if n == 0 {
      assert EncodeAll(rs)[..n] == [];
    } else if n < Size(rs[0]) {
      CutInsideFirst(base, rs, n);
    } else {
      OthersInMemory(base, rs);
      CutAnywhere(base + Size(rs[0]), rs[1..], n - Size(rs[0]));
      CutLonger(base, rs, n, CutOutcome(rs[1..], n - Size(rs[0])));
    }
  }

  lemma CutLonger(base: nat, rs: seq<Record>, n: nat, inner: Outcome)
    requires AllStorable(rs) && InMemory(base, EncodeAll(rs)) && rs != [] && Size(rs[0]) <= n <= |EncodeAll(rs)|
    requires n - Size(rs[0]) <= |EncodeAll(rs[1..])|
    requires Parse(base + Size(rs[0]), EncodeAll(rs[1..])[..n - Size(rs[0])]) == inner
    ensures Parse(base, EncodeAll(rs)[..n]) == Prepend([rs[0]], inner)
  {
    CutAfterFirst(base, rs, n);
  }

  lemma CutAfterFirst(base: nat, rs: seq<Record>, n: nat)
    requires AllStorable(rs) && InMemory(base, EncodeAll(rs)) && rs != [] && Size(rs[0]) <= n <= |EncodeAll(rs)|
    ensures |EncodeAll(rs)| == Size(rs[0]) + |EncodeAll(rs[1..])|
    ensures Parse(base, EncodeAll(rs)[..n]) ==
            Prepend([rs[0]], Parse(base + Size(rs[0]), EncodeAll(rs[1..])[..n - Size(rs[0])]))
  {
    var first := Frame(Encode(rs[0]));
    assert EncodeAll(rs) == first + EncodeAll(rs[1..]);
    CutOfSum(first, EncodeAll(rs[1..]), n);
    ParseRecord(base, rs[0], EncodeAll(rs[1..])[..n - |first|]);
  }

  lemma CutOfSum(first: seq<byte>, others: seq<byte>, n: nat)
    requires |first| <= n <= |first + others|
    ensures (first + others)[..n] == first + others[..n - |first|]
  {
  }

  /** A cut yields pages exactly when it falls between two of them, and then it yields all pages before it. */
  lemma {:induction false} CutAtBoundary(rs: seq<Record>, n: nat)
    requires n <= TotalSize(rs)
    ensures forall k :: 0 <= k <= |rs| && n == TotalSize(rs[..k]) ==> CutOutcome(rs, n) == Parsed(rs[..k])
    ensures CutOutcome(rs, n).Parsed? ==> exists k :: 0 <= k <= |rs| && n == TotalSize(rs[..k])
  {
    assert TotalSize(rs[..0]) == 0;
    forall k | 0 < k <= |rs| ensures TotalSize(rs[..k]) == Size(rs[0]) + TotalSize(rs[1..][..k - 1]) {
      assert rs[..k][1..] == rs[1..][..k - 1];
    }
    if n != 0 && n >= Size(rs[0]) {
      CutAtBoundary(rs[1..], n - Size(rs[0]));
      forall k | 0 < k <= |rs| && n == TotalSize(rs[..k]) ensures CutOutcome(rs, n) == Parsed(rs[..k]) {
        assert [rs[0]] + rs[1..][..k - 1] == rs[..k];
      }
      if CutOutcome(rs, n).Parsed? {
        var k :| 0 <= k <= |rs[1..]| && n - Size(rs[0]) == TotalSize(rs[1..][..k]);
        assert n == TotalSize(rs[..k + 1]);
      }
    }
  }

  // ---- The session file ----

  const VERSION_MINOR: nat := 1
  const HEADER_BYTES: nat := 16

  function Header(dataLength: nat): (header: seq<byte>)
    requires dataLength < WORD_LIMIT
    ensures |header| == HEADER_BYTES
  {
    WordBytes(VERSION_MINOR) + WordBytes(dataLength)
  }

  datatype Loaded = Data(data: seq<byte>) | SessionFileNotFound | InvalidHeader | HeaderVersionMismatch

  /** `load_session`: the length in the header is not compared with the data. */
  function Load(contents: Option<seq<byte>>): Loaded {
    match contents
    case None => SessionFileNotFound
    case Some(bytes) =>
      if |bytes| < HEADER_BYTES then InvalidHeader
      else if WordAt(bytes, 0) != VERSION_MINOR then HeaderVersionMismatch
      else Data(bytes[HEADER_BYTES..])
  }

  /** What `save_session` leaves in the file. */
  function SessionFile(data: seq<byte>): seq<byte>
    requires |data| < WORD_LIMIT
  {
    Header(|data|) + data
  }

  /** A save that was interrupted after any number of bytes. */
  lemma LoadTorn(data: seq<byte>, n: nat)
    requires |data| < WORD_LIMIT && n <= |SessionFile(data)|
    ensures Load(Some(SessionFile(data)[..n])) ==
            if n < HEADER_BYTES then InvalidHeader else Data(data[..n - HEADER_BYTES])
  {
    var bytes := SessionFile(data)[..n];
    if n >= HEADER_BYTES {
      assert bytes[0..WORD_BYTES] == WordBytes(VERSION_MINOR);
      WordRoundTrip(bytes, 0, VERSION_MINOR);
      assert bytes[HEADER_BYTES..] == data[..n - HEADER_BYTES];
    }
  }

  /** Any file: what is loaded is everything after a header of the right version, whatever length it claims. */
  lemma LoadExactly(bytes: seq<byte>)
    ensures |bytes| < 16 ==> Load(Some(bytes)) == InvalidHeader
    ensures |bytes| >= 16 ==> (Load(Some(bytes)) == HeaderVersionMismatch <==> WordAt(bytes, 0) != VERSION_MINOR)
    ensures |bytes| >= 16 && WordAt(bytes, 0) == VERSION_MINOR ==> Load(Some(bytes)) == Data(bytes[16..])
    ensures Load(None) == SessionFileNotFound
  {
  }

  /** The header holds the version and the length of what follows it. */
  lemma HeaderWords(data: seq<byte>)
    requires |data| < WORD_LIMIT
    ensures var file := SessionFile(data);
            |file| == 16 + |data| && WordAt(file, 0) == VERSION_MINOR && WordAt(file, 8) == |data| && file[16..] == data
  {
    var file := SessionFile(data);
    assert file[0..8] == WordBytes(VERSION_MINOR) && file[8..16] == WordBytes(|data|);
    WordRoundTrip(file, 0, VERSION_MINOR);
    WordRoundTrip(file, 8, |data|);
  }

  lemma LoadSaved(data: seq<byte>)
    requires |data| < WORD_LIMIT
    ensures Load(Some(SessionFile(data))) == Data(data)
  {
    LoadTorn(data, |SessionFile(data)|);
    assert SessionFile(data)[..|SessionFile(data)|] == SessionFile(data) && data[..|data|] == data;
  }

  /** A crash while saving leaves a session that is refused, or holds the first pages, or ends inside a length word. */
  lemma TornSession(base: nat, rs: seq<Record>, n: nat)
    requires AllStorable(rs) && InMemory(base, EncodeAll(rs)) && HEADER_BYTES <= n <= HEADER_BYTES + TotalSize(rs)
    ensures n <= |SessionFile(EncodeAll(rs))|
    ensures var loaded := Load(Some(SessionFile(EncodeAll(rs))[..n]));
            loaded.Data? && Parse(base, loaded.data) == CutOutcome(rs, n - HEADER_BYTES)
  {
    EncodedSize(rs);
    LoadTorn(EncodeAll(rs), n);
    CutAnywhere(base, rs, n - HEADER_BYTES);
  }
}
