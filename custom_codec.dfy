/**
 The custom "mycompression" codec that the compression tests register with
 a schema-registry group next to gzip and snappy. Its encoder copies the
 payload into a fresh byte array, rotates that array left by one byte in
 place and writes all of it to the output stream; its decoder copies its
 input into a fresh array, rotates it right by one byte in place and
 returns it. An empty payload makes both fail on their first array access.
 */
module CustomCodec {
  import opened Rotation

  /** A codec's type as the registry knows it: just its name. */
  datatype CodecType = CodecType(name: string)

  /** The one codec type this codec announces. */
  const MyCompression: CodecType := CodecType("mycompression")

  /** The failure both directions raise on an empty payload: an array access
      at `index` into an array of `length` bytes. */
  datatype CodecError = IndexOutOfBounds(index: int, length: nat)

  datatype Result<T> = Success(value: T) | Failure(error: CodecError)

  /** The codec's name is the name of its codec type, the one the group's
      codec list shows for it. */
  function GetName(): (n: string)
    ensures n == GetCodecType().name
    ensures n == "mycompression"
  {
    MyCompression.name
  }

  /** The codec type, which the serializer registers with the group. */
  function GetCodecType(): (t: CodecType)
    ensures t.name == "mycompression"
  {
    MyCompression
  }

  /** Encodes `data` (the bytes remaining in the input buffer) and gives back
      the bytes it writes to the output stream: the payload rotated left by
      one byte. The saved first byte goes into the last slot after a forward
      pass shifts every other byte one place down. */
  method Encode(data: seq<bv8>) returns (written: Result<seq<bv8>>)
    ensures written.Failure? <==> |data| == 0
    ensures written.Failure? ==> written.error == IndexOutOfBounds(0, 0)
    ensures written.Success? ==> |written.value| == |data|
    ensures written.Success? ==> forall i :: 0 <= i < |data| - 1 ==> written.value[i] == data[i + 1]
    ensures written.Success? ==> written.value[|data| - 1] == data[0]
    ensures written.Success? ==> written.value == RotateLeft(data)
  {
    var buf := new bv8[|data|](i requires 0 <= i < |data| => data[i]);
    if buf.Length == 0 {
      return Failure(IndexOutOfBounds(0, 0));
    }
    var temp := buf[0];
    var i := 0;
    while i < buf.Length - 1
      invariant 0 <= i <= buf.Length - 1
      invariant forall k :: 0 <= k < i ==> buf[k] == data[k + 1]
      invariant forall k :: i <= k < buf.Length ==> buf[k] == data[k]
    {
      buf[i] := buf[i + 1];
      i := i + 1;
    }
    buf[buf.Length - 1] := temp;
    assert buf[..] == RotateLeft(data);
    written := Success(buf[..]);
  }

  /** Decodes `data` and gives back the contents of the buffer it returns:
      the input rotated right by one byte. The saved last byte goes into the
      first slot after a backward pass shifts every other byte one place up.
      The decoder ignores the encoding properties it is handed. */
  method Decode(data: seq<bv8>, properties: map<string, string>) returns (decoded: Result<seq<bv8>>)
    ensures decoded.Failure? <==> |data| == 0
    ensures decoded.Failure? ==> decoded.error == IndexOutOfBounds(-1, 0)
    ensures decoded.Success? ==> |decoded.value| == |data|
    ensures decoded.Success? ==> decoded.value[0] == data[|data| - 1]
    ensures decoded.Success? ==> forall i :: 0 < i < |data| ==> decoded.value[i] == data[i - 1]
    ensures decoded.Success? ==> decoded.value == RotateRight(data)
  {
    var buf := new bv8[|data|](i requires 0 <= i < |data| => data[i]);
    if buf.Length == 0 {
      return Failure(IndexOutOfBounds(-1, 0));
    }
    var temp := buf[buf.Length - 1];
    var i := buf.Length - 1;
    while i > 0
      invariant 0 <= i <= buf.Length - 1
      invariant forall k :: 0 <= k <= i ==> buf[k] == data[k]
      invariant forall k :: i < k < buf.Length ==> buf[k] == data[k - 1]
    {
      buf[i] := buf[i - 1];
      i := i - 1;
    }
    buf[0] := temp;
    assert buf[..] == RotateRight(data);
    decoded := Success(buf[..]);
  }

  /** An event written through the codec and read back through it: the
      reader gets exactly the payload the writer handed over, and an empty
      payload never reaches the stream because the encoder fails on it. */
  method WriteThenRead(payload: seq<bv8>, properties: map<string, string>) returns (read: Result<seq<bv8>>)
    ensures |payload| > 0 ==> read == Success(payload)
    ensures |payload| == 0 ==> read == Failure(IndexOutOfBounds(0, 0))
  {
    var written := Encode(payload);
    if written.Failure? {
      return written;
    }
    read := Decode(written.value, properties);
    RightUndoesLeft(payload);
  }

  /** Read in the other direction: encoding what the decoder returned gives
      back the decoder's input. */
  method DecodeThenEncode(data: seq<bv8>, properties: map<string, string>) returns (again: Result<seq<bv8>>)
    ensures |data| > 0 ==> again == Success(data)
    ensures |data| == 0 ==> again == Failure(IndexOutOfBounds(-1, 0))
  {
    var decoded := Decode(data, properties);
    if decoded.Failure? {
      return decoded;
    }
    again := Encode(decoded.value);
    LeftUndoesRight(data);
  }
}
