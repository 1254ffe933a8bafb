/** Types shared by every component: bytes, byte strings and failure values. */
module Base {

  type byte = x: int | 0 <= x < 256

  /** A Go `string` or `[]byte`: both are byte sequences. */
  type Bytes = seq<byte>

  /** The bytes of a string constant. */
  function Ascii(s: string): (b: Bytes)
    requires forall i :: 0 <= i < |s| ==> s[i] as int < 128
    ensures |b| == |s| && forall i :: 0 <= i < |s| ==> b[i] == s[i] as int
  {
    seq(|s|, i requires 0 <= i < |s| => s[i] as int)
  }

  datatype Option<+T> = None | Some(value: T)

  datatype Result<+T> = Ok(value: T) | Err(error: Error)

  /** An error value. The text of error messages is not modelled. */
  datatype Error = Error(code: nat)

  /** What `os.FileInfo` tells the proxy about one directory entry. */
  datatype FileInfo = FileInfo(name: Bytes, size: nat, isDir: bool)
}
