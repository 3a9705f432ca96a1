/** Files as byte stores: one that only grows and counts its bytes, and one that can be rewritten. */
module Files {
  import opened Bytes

  /** `CFile`, opened for appending. */
  class CFile {
    var contents: seq<byte>
    var size: nat

    ghost predicate Valid()
      reads this
    {
      size == |contents|
    }

    /** A fresh temporary file. */
    constructor ()
      ensures Valid() && contents == []
    {
      contents, size := [], 0;
    }

    method Write(data: seq<byte>)
      requires Valid()
      modifies this
      ensures Valid() && contents == old(contents) + data
    {
      contents := contents + data;
      size := size + |data|;
    }
  }

  /** `CFileRW`; `None` when there is no such file. */
  class CFileRW {
    var contents: Option<seq<byte>>

    constructor (contents: Option<seq<byte>>)
      ensures this.contents == contents
    {
      this.contents := contents;
    }

    /** Opens with truncation. */
    method Write(data: seq<byte>)
      modifies this
      ensures contents == Some(data)
    {
      contents := Some(data);
    }

    method Append(data: seq<byte>)
      modifies this
      ensures contents == Some((if old(contents).Some? then old(contents).value else []) + data)
    {
      contents := Some((if contents.Some? then contents.value else []) + data);
    }

    method Read() returns (data: seq<byte>)
      ensures contents.Some? ==> data == contents.value
      ensures contents.None? ==> data == []
    {
      data := if contents.Some? then contents.value else [];
    }

    method Exists() returns (exists_: bool)
      ensures exists_ == contents.Some?
    {
      exists_ := contents.Some?;
    }

    /** `std::filesystem::remove`. */
    method Remove()
      modifies this
      ensures contents == None
    {
      contents := None;
    }
  }
}
