# The "mycompression" codec

The compression tests of this schema-registry test suite write Avro events
through three codecs: gzip, snappy, and a custom codec named
"mycompression". Then they read all three events back. The custom codec is
the one piece of logic the repository implements itself. It is an anonymous
`Codec` built by `createCustomCodec`:

- `getName` and `getCodecType` announce the codec type "mycompression".
  The test later expects that name as the third entry in the group's codec
  list.
- `encode` copies the bytes left in the input buffer into a fresh byte
  array. It saves the first byte, shifts every other byte one place down
  with a forward loop, and puts the saved byte last. Then it writes the
  whole array to the output stream. In short, it rotates the payload left
  by one byte.
- `decode` copies its input into a fresh array. It saves the last byte,
  shifts every other byte one place up with a backward loop, and puts the
  saved byte first. Then it returns the array. In short, it rotates the
  payload right by one byte.
- On an empty payload both fail at their first array access. For `encode`
  that is `array[0]`; for `decode` it is `array[-1]`. Java raises an
  index-out-of-bounds exception for these.

The model has two modules:

- `Rotation` (rotation.dfy) gives the two rotations as functions on byte
  sequences. It proves that they preserve length and contents (as a
  multiset), and that each undoes the other.
- `CustomCodec` (custom_codec.dfy) holds the codec itself. `Encode` and
  `Decode` are methods over a freshly allocated `array<bv8>`, shifted in
  place by the same loops as the source, with loop invariants. They are
  proved against the rotation functions. The empty-payload exception is
  modelled as a `Failure(IndexOutOfBounds(index, length))` result, not as a
  precondition. `WriteThenRead` is the round trip the read test relies on
  when it gets back the event written through this codec.
  `DecodeThenEncode` is the round trip in the other direction.

A few things are modelled as plain values. The input `ByteBuffer` is the
sequence of its remaining bytes. The `OutputStream` is the sequence of bytes
that `encode` writes to it. The buffer that `decode` returns is the sequence
of bytes it wraps.

The tests also observe compatibility rules, schema version and id numbering,
and encoding-id assignment. All of these are decided by the remote registry
server, whose code is not in the repository. They are not part of this
model.

## Model

| member | source | states |
|---|---|---|
| `Rotation.RotateLeft` | schema_files/CompressionIOTests.java:242-247 | rotating left by one keeps the length; byte i of the result is input byte i+1 for i < n-1, and the last byte is the input's first |
| `Rotation.RotateRight` | schema_files/CompressionIOTests.java:256-261 | rotating right by one keeps the length; the first byte of the result is the input's last, and byte i is input byte i-1 for 0 < i < n |
| `Rotation.RotationsArePermutations` | schema_files/CompressionIOTests.java:242-261 | both rotations give back a permutation of the payload (equal multisets of bytes): no byte is lost or invented |
| `Rotation.RightUndoesLeft` | schema_files/CompressionIOTests.java:236-263 | for every non-empty payload, rotating right undoes rotating left: decode(encode(x)) == x |
| `Rotation.LeftUndoesRight` | schema_files/CompressionIOTests.java:236-263 | for every non-empty input, rotating left undoes rotating right: encode(decode(x)) == x |
| `Rotation.RotateLeftInjective` | schema_files/CompressionIOTests.java:236-249 | two non-empty payloads with the same encoding are equal, so distinct events stay distinct on the stream |
| `CustomCodec.GetName` | schema_files/CompressionIOTests.java:226-229 | the codec's name is its codec type's name, "mycompression" (the name expected in the group's codec list) |
| `CustomCodec.GetCodecType` | schema_files/CompressionIOTests.java:231-234 | the codec type is MYCOMPRESSION, whose name is "mycompression" |
| `CustomCodec.Encode` | schema_files/CompressionIOTests.java:236-249 | on a non-empty payload, writes exactly as many bytes as it read, namely the payload rotated left by one (pointwise and as `RotateLeft`); on an empty payload, fails with an out-of-bounds access at index 0 of a 0-length array |
| `CustomCodec.Decode` | schema_files/CompressionIOTests.java:251-263 | on a non-empty input, returns as many bytes as it read, namely the input rotated right by one (pointwise and as `RotateRight`), whatever the properties map holds; on an empty input, fails with an out-of-bounds access at index -1 of a 0-length array |
| `CustomCodec.WriteThenRead` | schema_files/CompressionIOTests.java:107-137 | an event payload written through the codec and read back through it comes back unchanged; an empty payload fails in the encoder |
| `CustomCodec.DecodeThenEncode` | schema_files/CompressionIOTests.java:236-263 | encoding what the decoder returned gives back the decoder's input; an empty input fails in the decoder |

## Left out

- `ByteBuffer` position and limit handling, and `OutputStream` plumbing: the input is taken to be the buffer's remaining bytes. The output is the byte sequence written. `IOException` from the stream is not modelled, because the stream is a library object.
- Java's signed `byte` is modelled as `bv8`: the codec only copies bytes and never does arithmetic on them.
- The gzip and snappy codecs are library code that is not part of this model.
- The Avro serializers and deserializers are library code that is not part of this model. The same holds for the stream, writer, reader and reader-group setup.
- The random payload generator (`generateBigString`) draws on `java.util.Random` and Base64 encoding. The round-trip properties hold for every payload, so no particular generator is needed.
- All REST calls to the schema registry are network I/O against an external server. This covers group, schema, encoding and codec-type endpoints. The same goes for the concurrent group creation in the registry tests.
- Compatibility rules, version and id numbering, and encoding-id assignment are decided by that external server. The repository contains no code for them.
