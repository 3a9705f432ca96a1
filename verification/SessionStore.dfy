/** The loops that print and parse pages, and the service that keeps the bytes in a file. */
module SessionStore {
  import opened Bytes
  import opened Files
  import opened SessionModel

  method Memcpy(buffer: array<byte>, at: nat, source: seq<byte>)
    requires at + |source| <= buffer.Length
    modifies buffer
    ensures buffer[..] == old(buffer[..at]) + source + old(buffer[at + |source|..])
  {
    forall i | 0 <= i < |source| {
      buffer[at + i] := source[i];
    }
    assert buffer[..at] == old(buffer[..at]) && buffer[at..at + |source|] == source;
    assert buffer[..] == buffer[..at] + buffer[at..at + |source|] + buffer[at + |source|..];
  }

  /** `serialize`: four copies at an advancing position. */
  method Serialize(r: Record) returns (bytes: array<byte>)
    requires Storable(r)
    ensures fresh(bytes) && bytes[..] == Encode(r)
  {
    bytes := new byte[MATRIX_BYTES + WORD_BYTES + WORD_BYTES + |r.path|](_ => 0);
    var position := 0;
    Memcpy(bytes, position, r.matrix);
    position := position + MATRIX_BYTES;
    assert bytes[..position] == r.matrix;
    Memcpy(bytes, position, WordBytes(r.page));
    position := position + WORD_BYTES;
    assert bytes[..position] == r.matrix + WordBytes(r.page);
    Memcpy(bytes, position, WordBytes(|r.path|));
    position := position + WORD_BYTES;
    assert bytes[..position] == r.matrix + WordBytes(r.page) + WordBytes(|r.path|);
    Memcpy(bytes, position, r.path);
  }

  lemma {:induction false} EncodeAllAppend(rs: seq<Record>, r: Record)
    requires AllStorable(rs) && Storable(r)
    ensures EncodeAll(rs + [r]) == EncodeAll(rs) + Frame(Encode(r))
  {
    if rs == [] {
      assert rs + [r] == [r] && [r][1..] == [];
    } else {
      EncodeAllAppend(rs[1..], r);
      assert (rs + [r])[1..] == rs[1..] + [r];
    }
  }

  /** `serialize_items` */
  method SerializeItems(items: seq<Record>) returns (data: seq<byte>)
    requires AllStorable(items)
    ensures data == EncodeAll(items)
  {
    data := [];
    for i := 0 to |items|
      invariant data == EncodeAll(items[..i])
    {
      var serialized := Serialize(items[i]);
      data := data + WordBytes(serialized.Length);
      data := data + serialized[..];
      EncodeAllAppend(items[..i], items[i]);
      assert items[..i + 1] == items[..i] + [items[i]];
    }
    assert items[..|items|] == items;
  }

  /** `deserialize_items`: every turn moves `start` by at least the eight bytes of a length. */
  method DeserializeItems(base: nat, data: seq<byte>) returns (result: Outcome)
    requires InMemory(base, data)
    ensures result == Parse(base, data)
  {
    var start := 0;
    var items: seq<Record> := [];
    ghost var whole := Parse(base, data);
    ghost var later := whole;
    assert data[0..] == data;
    while start < |data|
      invariant start <= |data|
      invariant later == Parse(base + start, data[start..])
      invariant whole == Prepend(items, later)
      decreases |data| - start
    {
      if start + WORD_BYTES > |data| {
        return Undefined;
      }
      ParseTurn(base, data, start);
      var itemLength := WordAt(data, start);
      var itemStart := start + WORD_BYTES;
      var itemEnd := itemStart + itemLength;
      if base + itemEnd >= WORD_LIMIT {
        return Undefined;
      }
      if itemEnd > |data| {
        return Rejected;
      }
      var item := Decode(base + itemStart, data[itemStart..itemEnd]);
      if item.Astray? {
        return Undefined;
      }
      later := Parse(base + itemEnd, data[itemEnd..]);
      if item.Item? {
        PrependTwice(items, [item.record], later);
        items := items + [item.record];
      }
      start := itemEnd;
    }
    assert later == Parsed([]);
    result := Parsed(items);
  }

  /** `CSessionService` */
  class CSessionService {
    const sessionFile: CFileRW

    constructor (file: CFileRW)
      ensures sessionFile == file
    {
      sessionFile := file;
    }

    method SaveSession(data: seq<byte>)
      requires |data| < WORD_LIMIT
      modifies sessionFile
      ensures sessionFile.contents == Some(SessionFile(data))
    {
      sessionFile.Write(Header(|data|));
      sessionFile.Append(data);
    }

    method LoadSession() returns (loaded: Loaded)
      ensures loaded == Load(sessionFile.contents)
    {
      var exists_ := sessionFile.Exists();
      if !exists_ {
        return SessionFileNotFound;
      }
      var data := sessionFile.Read();
      if |data| < HEADER_BYTES {
        return InvalidHeader;
      }
      if WordAt(data, 0) != VERSION_MINOR {
        return HeaderVersionMismatch;
      }
      loaded := Data(data[HEADER_BYTES..]);
    }

    method RemoveSession()
      modifies sessionFile
      ensures sessionFile.contents == None && Load(sessionFile.contents) == SessionFileNotFound
    {
      sessionFile.Remove();
    }
  }
}
