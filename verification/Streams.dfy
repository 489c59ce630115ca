/** Seekable data: Go's bytes.Reader and files. */
module Streams {

  newtype byte = b: int | 0 <= b < 256

  datatype Whence = FromStart | FromCurrent | FromEnd

  /** Where a seek leads; before the start there is nothing to seek to. */
  function Target(size: nat, pos: nat, offset: int, whence: Whence): int {
    match whence
    case FromStart => offset
    case FromCurrent => pos + offset
    case FromEnd => size + offset
  }

  /** Where reading n bytes at pos ends. */
  function ReadEnd(size: nat, pos: nat, n: nat): (end: nat)
    requires pos < size
    ensures pos <= end <= size
  {
    if pos + n <= size then pos + n else size
  }

  /** bytes.Reader. */
  class Reader {
    const data: seq<byte>
    var pos: nat

    constructor (data: seq<byte>)
      ensures this.data == data && pos == 0
    {
      this.data := data;
      pos := 0;
    }

    /** Reads up to n bytes; at the end of the data there is nothing but EOF. */
    method Read(n: nat) returns (buf: seq<byte>, eof: bool)
      modifies this
      ensures eof == (old(pos) >= |data|)
      ensures eof ==> buf == [] && pos == old(pos)
      ensures !eof ==> pos == ReadEnd(|data|, old(pos), n) && buf == data[old(pos)..pos]
    {
      if pos >= |data| {
        return [], true;
      }
      var end := ReadEnd(|data|, pos, n);
      buf, eof := data[pos..end], false;
      pos := end;
    }

    /** io.ReadFull: exactly n bytes, or an error with whatever was left consumed. */
    method ReadFull(n: nat) returns (buf: seq<byte>, ok: bool)
      modifies this
      ensures ok == (n == 0 || old(pos) + n <= |data|)
      ensures ok && n > 0 ==> pos == old(pos) + n && buf == data[old(pos)..pos]
      ensures ok && n == 0 ==> pos == old(pos) && buf == []
      ensures pos >= old(pos)
    {
      if n == 0 {
        return [], true;
      }
      if pos + n <= |data| {
        buf, ok := data[pos..pos + n], true;
        pos := pos + n;
      } else {
        buf, ok := [], false;
        pos := if pos < |data| then |data| else pos;
      }
    }

    /** Beyond the end is fine, before the start is not. */
    method Seek(offset: int, whence: Whence) returns (ok: bool)
      modifies this
      ensures ok == (Target(|data|, old(pos), offset, whence) >= 0)
      ensures pos == if ok then Target(|data|, old(pos), offset, whence) else old(pos)
    {
      var target := Target(|data|, pos, offset, whence);
      ok := target >= 0;
      if ok { pos := target; }
    }
  }

  /** os.File over a regular file. Unlike bytes.Reader it answers an empty read with no error. */
  class File {
    var content: seq<byte>
    var pos: nat
    var isOpen: bool

    constructor ()
      ensures content == [] && pos == 0 && isOpen
    {
      content, pos, isOpen := [], 0, true;
    }

    method Append(data: seq<byte>)
      requires isOpen && pos == |content|
      modifies this
      ensures content == old(content) + data && pos == |content| && isOpen
    {
      content := content + data;
      pos := |content|;
    }

    method Read(n: nat) returns (buf: seq<byte>, eof: bool)
      requires isOpen
      modifies this`pos
      ensures eof == (n > 0 && old(pos) >= |content|)
      ensures n == 0 || eof ==> buf == [] && pos == old(pos)
      ensures n > 0 && !eof ==> pos == ReadEnd(|content|, old(pos), n) && buf == content[old(pos)..pos]
    {
      if n == 0 {
        return [], false;
      }
      if pos >= |content| {
        return [], true;
      }
      var end := ReadEnd(|content|, pos, n);
      buf, eof := content[pos..end], false;
      pos := end;
    }

    method ReadFull(n: nat) returns (buf: seq<byte>, ok: bool)
      requires isOpen
      modifies this`pos
      ensures ok == (n == 0 || old(pos) + n <= |content|)
      ensures ok ==> |buf| == n && pos == old(pos) + n
      ensures ok && n > 0 ==> buf == content[old(pos)..pos]
    {
      buf, ok := [], true;
      ghost var start := pos;
      while |buf| < n
        invariant |buf| <= n && pos == start + |buf|
        invariant |buf| > 0 ==> pos <= |content| && buf == content[start..pos]
      {
        var more, eof := Read(n - |buf|);
        if eof {
          return buf, false;
        }
        buf := buf + more;
      }
    }

    method Seek(offset: int, whence: Whence) returns (ok: bool)
      requires isOpen
      modifies this`pos
      ensures ok == (Target(|content|, old(pos), offset, whence) >= 0)
      ensures pos == if ok then Target(|content|, old(pos), offset, whence) else old(pos)
    {
      var target := Target(|content|, pos, offset, whence);
      ok := target >= 0;
      if ok { pos := target; }
    }

    method Close()
      modifies this`isOpen
      ensures !isOpen
    {
      isOpen := false;
    }
  }
}
