# 3DS chunk decoder, modelled in Dafny

The program reads an Autodesk 3DS file and collects its mesh objects. A 3DS file is a stream
of chunks. Each chunk opens with a six-byte header: a 16-bit little-endian tag, then a 32-bit
little-endian length that counts the header itself. The decoder (`readChunks`) walks the file
one chunk header at a time while the cursor is below the file length, and branches on the tag:

- MAIN (0x4D4D), 3D EDITOR (0x3D3D) and TRIANGULAR MESH (0x4100) are umbrella chunks. Only
  their header is consumed; their children follow directly.
- OBJECT BLOCK (0x4000) names the current object with the NUL-terminated bytes after the
  header.
- VERTICES LIST (0x4110) reads a 16-bit count n and n vertices of three 4-byte words.
- FACES LIST (0x4120) reads a 16-bit count n and n records of four 16-bit words, keeping the
  first three of each. It then appends the current object to the output queue and starts a
  fresh one.
- Any other tag is skipped by its declared length.

The model takes the whole file as a sequence of bytes. It splits the loop in two:

- `Chunks.Parse` lists the chunks the loop visits.
- `Objects.Fold` applies them to the accumulator. The accumulator holds the object being
  filled in, the output queue and the vertex total.

`Decoder.Decode` composes the two. `Decoder.ReadChunks` is the loop as the source writes it,
proved to compute `Decode`.

Every field and payload the decoder reads has an encoder. `LittleEndian` writes 16- and 32-bit
words, which also serve for a list's count. `ChunkReader` writes the header, and `Payloads` writes
the vertex and face records. A name is written as its own bytes, NUL included. `Payloads` also
holds the read-back lemmas for counts and names. `ChunkWriter` assembles all of these into
chunks and whole files. The lemmas connect the two directions:

- every header, count, name, vertex list and face list reads back as what was written;
- a whole file built from meshes decodes to exactly the expected objects
  (`SceneFile.DecodeEncodedScene`). The files covered hold MAIN, 3D EDITOR and object blocks
  only; a chunk with an unknown tag has no encoder, and its skip is stated per pass by
  `Decoder.StepSkip`.

Modules, in dependency order:

- `Results`: the result type and the two decode errors.
- `LittleEndian`: bytes, 16- and 32-bit words.
- `SeqFacts`: where a piece sits in a byte sequence.
- `ChunkReader`: tag constants, the header and its reader.
- `Payloads`: name, vertex and face readers with their encoders.
- `Chunks`: one chunk and the chunk walk.
- `Objects`: the accumulator.
- `Decoder`: decode, one loop pass, and the loop itself.
- `ChunkWriter`: chunk and scene layout, and what the reader finds in it.
- `SceneFile`: the end-to-end round trip.
- `NameLoopAsWritten`: the object-name loop exactly as the source writes it.

Three behaviours of the code are worth stating up front, since the model follows them:

- **The object name keeps its NUL.** `objName += nextChar` runs before the loop test
  (3dsloader.cpp:93-96), so an object called `Cube` is stored as the five bytes `Cube` and
  NUL (`SceneFile.DecodeCube`).
- **A vertex list replaces the current object's vertices.** Each VERTICES LIST allocates a
  fresh array for the current object (3dsloader.cpp:108), so a second list for the same object
  replaces the first rather than adding to it; the running total still counts both.
- **The source never checks a read.** Where a read runs out of input, the model reports a
  failure of its own choosing; "Left out" lists each of these decisions.

## Model

| member | source | states |
|---|---|---|
| ChunkReader.ReadHeader | 3dsloader.cpp:50-55 | succeeds exactly when six bytes remain, and then the cursor moves by exactly six; a short header is a truncation at the header's start |
| ChunkReader.ReadHeaderEncodes | 3dsloader.cpp:50-55 | the tag is bytes 0-1 and the length bytes 2-5 of the header, both little-endian, read as two separate fields: re-encoding the header gives back exactly the six bytes read |
| ChunkReader.ReadEncodedHeader | 3dsloader.cpp:40-55 | wherever an encoded header sits in the file, reading there returns that header and moves the cursor past its six bytes |
| LittleEndian.U16OfEncoding | 3dsloader.cpp:52 | a 16-bit field written least significant byte first reads back as its value |
| LittleEndian.U32OfEncoding | 3dsloader.cpp:53 | a 32-bit field written least significant byte first reads back as its value |
| LittleEndian.EncodeU16OfRead | 3dsloader.cpp:52 | reading two bytes as a 16-bit value and writing it back reproduces those bytes |
| LittleEndian.EncodeU32OfRead | 3dsloader.cpp:53 | reading four bytes as a 32-bit value and writing it back reproduces those bytes |
| LittleEndian.U16AtEncoding | 3dsloader.cpp:52 | an encoded 16-bit value reads back as itself wherever it sits |
| LittleEndian.U32AtEncoding | 3dsloader.cpp:53 | an encoded 32-bit value reads back as itself wherever it sits |
| Payloads.ReadCount | 3dsloader.cpp:107 | reading a list's 16-bit count succeeds exactly when two bytes remain, then moves the cursor past them; otherwise the list is truncated where its count should start |
| Payloads.ReadEncodedCount | 3dsloader.cpp:107 | a count written little-endian reads back as itself, cursor just past it |
| Payloads.ReadName | 3dsloader.cpp:90-98 | succeeds exactly when a NUL follows the cursor; the name is the bytes up to and including the first NUL, and the cursor stops just past it; otherwise a truncation at the end of the file |
| Payloads.NulFreeEverywhere | 3dsloader.cpp:93-96 | the recursive "no NUL" test used by the name reader holds exactly when no byte is NUL |
| Payloads.ReadStoredName | 3dsloader.cpp:93-96 | a NUL-terminated name reads back as itself whatever follows it |
| Payloads.ReadVertices | 3dsloader.cpp:111-117 | reading n vertices succeeds exactly when 12n bytes remain; the i-th vertex is the three 32-bit words at offset 12i, in x, y, z order, and the cursor ends 12n bytes further |
| Payloads.ReadFaces | 3dsloader.cpp:128-137 | reading n face records succeeds exactly when 8n bytes remain; the i-th triangle is the first three 16-bit words at offset 8i (the fourth is stepped over), and the cursor ends 8n bytes further |
| Payloads.VectorAtEncoding | 3dsloader.cpp:112-116 | an encoded vertex reads back as itself |
| Payloads.TriangleAtEncoding | 3dsloader.cpp:129-136 | an encoded face record reads back as its first three words |
| Payloads.ReadEncodedVertices | 3dsloader.cpp:111-117 | a run of encoded vertices reads back as the same list, cursor just past it |
| Payloads.ReadEncodedFaces | 3dsloader.cpp:128-137 | a run of encoded face records reads back as their triangles, cursor just past them |
| Chunks.ReadChunk | 3dsloader.cpp:84-145 | one pass of the loop reads a chunk and moves the cursor by at least the six header bytes; fewer than six bytes left is a truncation; only a chunk with an unknown tag can fail as a malformed skip, so every other failure is a truncation; every chunk read has the shape its tag promises (known container tag, NUL-terminated name, count equal to the list length, unknown tag with length at least six) |
| Chunks.Parse | 3dsloader.cpp:83-146 | the loop stops as soon as the cursor is at or past the end of the input; before that it visits at least one chunk; every chunk visited has the shape its tag promises |
| Chunks.ParseFailsAtReachedFailure | 3dsloader.cpp:83-146 | a pass the walk reaches that fails to read its chunk fails the whole walk with that pass's error |
| Chunks.ParseFailureIsReached | 3dsloader.cpp:83-146 | a failed walk failed at a pass it reaches, with that pass's error |
| Objects.Apply | 3dsloader.cpp:85-144 | only a face list completes an object, appending it at the end of the output and starting a fresh one; only a vertex list adds to the total, by its count; a chunk of the shape the reader produces keeps every object's counts in agreement with its arrays |
| Objects.Fold | 3dsloader.cpp:83-146 | applying a run of chunks in order grows the output by one object per face-list chunk and the vertex total by the sum of the vertex-list counts |
| Objects.Flatten | 3dsloader.cpp:126-136 | n triangles become 3n indices, with face i at positions 3i, 3i+1 and 3i+2 |
| Objects.FoldConcat | 3dsloader.cpp:83-146 | applying a run of chunks in two parts is the same as applying it in one |
| Objects.FoldEmitsOneObjectPerFaceList | 3dsloader.cpp:138-140 | the output only grows at its end, by one object per face-list chunk, in encounter order; the k-th new object carries the k-th face list's count and faces |
| Objects.FoldKeepsWellFormed | 3dsloader.cpp:103-141 | every object, completed or not, has as many vertices as its vertex count and three indices per face |
| Decoder.Decode | 3dsloader.cpp:76-150 | a decode succeeds exactly when every chunk the loop visits reads, and fails with the walk's error otherwise; a successful decode holds one object per face-list chunk and a vertex total equal to the sum of the vertex-list counts |
| Decoder.DecodeFailsExactlyAtAFailedRead | 3dsloader.cpp:83-146 | a decode fails exactly when a pass the loop reaches fails to read its chunk, and then with that pass's error: input that ends inside a field gives no partial result; a malformed-skip failure is the failed read of a reached chunk whose tag is unknown |
| Decoder.DecodeSummary | 3dsloader.cpp:76-150 | in a successful decode the k-th object is the one the k-th face-list chunk completed, carrying that chunk's count and its faces flattened, and every object is well formed |
| Decoder.Step | 3dsloader.cpp:84-145 | one pass moves the cursor forward by at least a header and either leaves the output queue alone or appends one object at its end |
| Decoder.StepContainer | 3dsloader.cpp:85-102 | MAIN, 3D EDITOR and TRIANGULAR MESH consume exactly their six header bytes and change nothing else |
| Decoder.StepSkip | 3dsloader.cpp:143-144 | an unknown tag with declared length L moves the cursor to the header start plus L, even past the end of the file, and changes nothing else; L below six is rejected |
| Decoder.StepObjectBlock | 3dsloader.cpp:90-100 | OBJECT BLOCK succeeds exactly when a NUL follows. The name becomes the bytes up to and including that NUL, and the cursor stops just past it. The vertices, faces, output queue and vertex total stay as they were. A failure is a truncation |
| Decoder.StepVertexList | 3dsloader.cpp:103-120 | VERTICES LIST succeeds exactly when the count and 12n bytes are present. The cursor moves 2 + 12n past the header. The vertex array is replaced by exactly those n vertices in file order. The total grows by n. Nothing else changes. A failure is a truncation |
| Decoder.StepFaceList | 3dsloader.cpp:121-142 | FACES LIST succeeds exactly when the count and 8n bytes are present. The cursor moves 2 + 8n past the header. The current object, with n faces and 3n indices taken from the first three words of each record, is appended to the output queue. A fresh object takes its place. A failure is a truncation |
| Decoder.ReadChunks | 3dsloader.cpp:76-150 | the loop, run while the cursor is below the input length, computes exactly the decode of the whole file |
| ChunkWriter.ReadEncodedContainer | 3dsloader.cpp:86-89 | an encoded MAIN, 3D EDITOR or TRIANGULAR MESH header reads back as that container, cursor just past the header |
| ChunkWriter.ReadEncodedObjectBlock | 3dsloader.cpp:90-100 | an encoded OBJECT BLOCK reads back as its NUL-terminated name, cursor just past the NUL |
| ChunkWriter.ReadEncodedVertexChunk | 3dsloader.cpp:103-120 | an encoded VERTICES LIST reads back as its vertices, cursor at the chunk's end |
| ChunkWriter.ReadEncodedFaceChunk | 3dsloader.cpp:121-142 | an encoded FACES LIST reads back as its triangles, cursor at the chunk's end |
| ChunkWriter.ParseStoredMesh | 3dsloader.cpp:83-146 | an encoded object block is walked as OBJECT BLOCK, TRIANGULAR MESH, VERTICES LIST, FACES LIST, then whatever follows |
| ChunkWriter.ParseStoredMeshes | 3dsloader.cpp:83-146 | encoded object blocks back to back up to the end of the file are walked as their chunks, in order |
| ChunkWriter.ParseEncodedScene | 3dsloader.cpp:83-146 | an encoded file is walked as MAIN, 3D EDITOR, then every object block's chunks in order |
| SceneFile.FoldMesh | 3dsloader.cpp:90-140 | from a fresh object, one mesh's chunks append exactly the expected object and leave a fresh object |
| SceneFile.FoldMeshes | 3dsloader.cpp:90-140 | the chunks of several meshes append their expected objects in order, and the total grows by their vertex counts |
| SceneFile.DecodeEncodedScene | 3dsloader.cpp:76-150 | decoding an encoded file yields one object per mesh, in order, each with the mesh's name, vertices and flattened faces, and the sum of the vertex counts as the total |
| SceneFile.DecodeCube | 3dsloader.cpp:76-150 | a file with one object `Cube` of 8 vertices and 12 faces decodes to one object named `Cube` plus NUL, with a vertex total of 8 |
| NameLoopAsWritten.NameLoop | 3dsloader.cpp:93-96 | the name loop as written: each pass appends one byte, and the loop finishes only on reading NUL |
| NameLoopAsWritten.NameLoopNeverFinishes | 3dsloader.cpp:93-96 | with no NUL left in the file, no number of passes finishes the name |
| NameLoopAsWritten.NameLoopAgreesWithReadName | 3dsloader.cpp:93-96 | when a NUL does follow, the loop as written and `ReadName` give the same name and cursor |
| NameLoopAsWritten.UnterminatedNameRunsForever | 3dsloader.cpp:93-96 | on the file `00 40 07 00 00 00 41` the loop as written never finishes |
| NameLoopAsWritten.UnterminatedNameIsTruncated | 3dsloader.cpp:90-98 | on the same file the model's name reader and decoder both report a truncation at offset 7 |

## Left out

- File access is left out: opening and closing the file (`fopen`, `fclose`), `filelength`, and
  the convention that 0 means "could not open". The model takes the whole file as its input
  sequence, so the loop bound is that sequence's length.
- The return value of `readChunks` (the file length) is not modelled: it is a constant of the
  input.
- `printf` and `fflush` progress output are console output only.
- Vertex coordinates are kept as raw 32-bit words. No floating-point value is interpreted.
- `new`/`delete` and the leaked object in `readChunks` are not modelled. The accumulator is an
  immutable value and the output queue a sequence.
- `main` is a fixed-path driver that prints and frees the results.
- Files of 4 GiB or more are not modelled. `filelength` returns `unsigned int` and positions
  are compared against it; the model uses unbounded positions. Within that bound the `int`
  vertex total cannot overflow: it would need more than 2^31 vertices of 12 bytes each.
- A fresh object's counts and arrays are left uninitialised by `new My3DObject`. The model
  starts them at 0 and empty.
- A read that runs past the end of the file inside a known chunk yields `Truncated` in the
  model. This covers a short header, a missing count, and short vertex or face lists. The
  source does not check `fread` and continues with stale or indeterminate values.
- A header cut short at the end of the file is `Truncated` in the model. In the source, when
  two to five bytes remain the tag is still read whole; if it is MAIN, 3D EDITOR or TRIANGULAR
  MESH the source breaks without using the length to move the cursor, the cursor stands at the end of the file,
  and the loop ends normally with the objects collected so far. The model reports `Truncated`
  at the header's start instead. For other tags, and when one byte remains, the source goes on
  with indeterminate values.
- Fields are read in host byte order and host sizes (`fread` into `unsigned short`, `unsigned
  int` and `float`). The model assumes a little-endian host with a 2-byte `unsigned short`, a
  4-byte `unsigned int` and a 4-byte `float`; on a big-endian host the source decodes other
  tags, lengths and counts. It also assumes a 64-bit `long`, so that the `fseek` offset
  `chunkLength - 6` (3dsloader.cpp:144) is never negative and every target position can be
  represented. With a 32-bit `long`, an offset of 2^31 or more becomes negative, so `fseek`
  moves the cursor back by 2^32 minus the offset, and the source walks those bytes again
  (`fseek` fails instead if that would go before the start of the file). A target beyond the
  largest `long` makes `fseek` fail: the cursor stays just past the header, and the source
  walks the unknown chunk's payload as chunks. In both cases the model moves forward by the
  declared length.
- An unknown chunk with a declared length below six yields `MalformedSkip` in the model. The
  source computes `chunkLength - 6` in unsigned arithmetic and seeks by the wrapped value:
  with a 64-bit `long` that is a seek about 4 GiB forward, which ends the loop; with a 32-bit
  `long` it is a seek backward by up to six bytes, and a length of 0 makes the source read
  the same header forever.
- A skip that lands past the end of the file ends the loop normally, as in the source.
- Payloads.ReadName: returns `Truncated` where the source's loop never ends; see "Findings"
  and `NameLoopAsWritten`.

## Findings

| source | as written | input that shows it | evidently intended | confidence | as-written member | corrected member |
|---|---|---|---|---|---|---|
| 3dsloader.cpp:93-96 | The name loop stops only when the character read is NUL, and never checks whether `fread` read anything. At the end of the file `fread` leaves `nextChar` unchanged (a byte other than NUL), so the loop appends that byte forever. | The 7-byte file `00 40 07 00 00 00 41`: an OBJECT BLOCK header, then the name byte `A`, then the end of the file. | Stop at the end of the file and report a truncated name. | not executed | NameLoopAsWritten.UnterminatedNameRunsForever | Payloads.ReadName |
