# wzlibcpp decoding core in Dafny

This project models the decoding core of wzlibcpp. wzlibcpp is a C++ reader for WZ archives, the packed resource files of a game client. It covers four parts.

- **The byte cursor** (`wz::Reader`, modules `WzBase`, `Codec`, `WzReader`).
  - An immutable buffer, the archive's keystream, and a cursor that every read advances.
  - Little-endian reads, the one-or-five-byte compressed int, and plain strings.
  - The XOR string cipher: a 16-bit wide variant and an 8-bit narrow variant.
  - String blocks: a tag selects an inline string or a shared copy at `base + delta`.
  - The image-header probe.
  - `Codec` states each read as a pure function of the bytes. The `Reader` class is proved to compute the same value and to leave the cursor at the same place.
- **The property tree and its parser** (`wz::Node`, modules `WzNode`, `PropSpec`, `PropertyParser`).
  - Nodes keep their children in a map from name to an ordered sequence.
  - `parse_property_list` dispatches on a one-byte type tag. `parse_extended_prop` dispatches on a class name: `Property`, `Canvas`, `Shape2D#Vector2D`, `Shape2D#Convex2D`, `Sound_DX8` or `UOL`.
  - The Canvas and Sound headers are fixed layouts. They compute where the payload lies and skip over it.
  - `PropSpec` describes, as pure functions, which entries a property list decodes to and where the cursor ends.
  - The `PropertyParser` methods build the node tree on the heap. Each is proved to agree with its function: the same success or error, the same end position, and a tree that mirrors the entries (`Built`, `ListMirrors`).
- **Path resolution** (`find_from_path` / `operator[]`, module `PathResolver`).
  - The path is split on `/`. `..` moves to the parent, and any other component moves to the first child of that name.
  - A UOL child is replaced by its target, once.
  - An Image node is replaced through a path-keyed cache.
- **The version check** (`wz::get_version_hash`, module `Version`).
  - A 32-bit rolling hash over the decimal text of the version.
  - The one-byte XOR fold of that hash, which the archive header stores.

Where the original runs off the buffer, dereferences null or hits `assert(0)`, the model returns an error (`Result`, with errors `OutOfRange`, `MalformedData`, `InvalidPath`, `NodeNotFound`, `TooDeep` and `DanglingLink`). The only exceptions are the cursor primitives `ReadByte`, `Read`, `ReadI32` and `ReadI16`, which state the bytes they need as a precondition.

Where the code and its surrounding description differ, the model follows the code:

- `read_string()` casts each byte to `char` before storing it (`src/Reader.cpp:36`). On the usual targets `char` is signed, so bytes 0x80–0xFF become the code units 0xFF80–0xFFFF (`Codec.CharUnit` defines this, and `Codec.ZeroTerminatedHighByte` shows it on a concrete byte). `read_string(len)` and the narrow cipher zero-extend instead.
- On a cache miss, the Image branch parses into a new node and stores it under that node's own `path` (`src/Node.cpp:536`, `src/Node.cpp:544`), not under the path it looked up. Whether that path is empty depends on `Directory::parse_image`, which is not part of this model. The model assumes parse_image leaves the new node's path as the constructor set it, empty. Under that assumption, after a miss the looked-up path is still absent from the cache (`PathResolver.OpenImage`).
- The canvas sizes `w*h*2`, `w*h*4` and `w*h/128` (`src/Node.cpp:280-295`) and the blob length minus 1 (`src/Node.cpp:260`) are computed in 32-bit `int`. Signed overflow is undefined behaviour in C++. The model takes it as two's-complement wrap-around (`WzBase.Wrap32`), as for the version hash. The field types of `WzCanvas` are not part of this model and are taken to be `int`.
- A property list's count and a Convex2D's count are signed. A count ≤ 0 reads no entries.

## Model

| member | source | states |
|---|---|---|
| WzBase.LEBytesRoundTrip | include/wz/Reader.hpp:20-26 | the n-byte little-endian encoding of any value below 256^n reads back as that value |
| WzBase.I8 | src/Reader.cpp:65 | a byte read as i8 lies in [-128, 127] and has the byte's bit pattern |
| WzBase.I32 | include/wz/Reader.hpp:23 | an unsigned 32-bit pattern read as i32 is a 32-bit signed value with that pattern |
| WzBase.Wrap32 | src/Node.cpp:280-295 | 32-bit int arithmetic: the result is an i32 congruent to the exact value mod 2^32, and is the exact value whenever that fits |
| WzBase.I32OfPattern | include/wz/Reader.hpp:23 | every i32 is the reading of its own two's-complement pattern |
| Codec.Fixed | include/wz/Reader.hpp:20-26 | read<T> of n bytes succeeds exactly when n bytes remain, ends n bytes later, and yields a value below 256^n; otherwise OutOfRange |
| Codec.FixedI32 | include/wz/Reader.hpp:20-26 | read<i32> succeeds exactly when 4 bytes remain, ends 4 bytes later, and yields an i32 |
| Codec.CompressedInt | src/Reader.cpp:63-69 | succeeds exactly when the byte is there, plus 4 more when it is -128; consumes 1 byte exactly when the i8 is not -128 and 5 exactly when it is; the result is an i32 |
| Codec.CompressedIntRoundTrip | src/Reader.cpp:63-69 | every i32, encoded as 1 byte when in [-127, 127] and as 0x80 plus 4 bytes otherwise, decodes back to itself anywhere in a buffer, ending right after the encoding |
| Codec.FixedString | src/Reader.cpp:45-55 | read_string(len) yields exactly len units, unit i being byte i zero-extended, and consumes len bytes; fails exactly when fewer remain |
| Codec.ZeroTerminated | src/Reader.cpp:30-43 | on success the cursor ends one past the text, that is after the terminator, inside the buffer; the only error is OutOfRange |
| Codec.ZeroTerminatedFails | src/Reader.cpp:30-43 | read_string() fails exactly when no zero byte follows the start |
| Codec.ZeroTerminatedTerminator | src/Reader.cpp:34-38 | on success the last byte consumed is zero and every byte before it is nonzero |
| Codec.ZeroTerminatedStopsAtFirstZero | src/Reader.cpp:30-43 | the read stops at the first zero byte, consumes it, does not include it, returns the bytes before it read as chars, and fails exactly when there is no zero byte |
| Codec.ZeroTerminatedAt | src/Reader.cpp:30-43 | with z the first zero byte from p, the result is the bytes p..z read as chars, and the cursor ends at z + 1 |
| Codec.ZeroTerminatedHighByte | src/Reader.cpp:36-39 | the bytes E9 00 read as the single unit 0xFFE9 |
| Codec.CipherString | src/Reader.cpp:73-143 | a zero prefix gives the empty string and consumes 1 byte; otherwise, on success, the end is the payload start (prefix, plus 4 after an escape) plus 2 or 1 bytes per unit, and every unit is the wide or narrow deciphered unit at its index; the only error is OutOfRange |
| Codec.CipherStringEscapedWide | src/Reader.cpp:85-110 | after the 127 escape, a positive i32 length n gives exactly the n wide deciphered units after the 5-byte prefix and ends at 5 + 2n, or OutOfRange when they do not fit |
| Codec.CipherStringEscapedNarrow | src/Reader.cpp:113-142 | after the -128 escape, a positive i32 length n gives exactly the n narrow deciphered units after the 5-byte prefix and ends at 5 + n, or OutOfRange when they do not fit |
| Codec.CipherStringEscapedEmpty | src/Reader.cpp:89-128 | after the 127 / -128 escape, a length ≤ 0 gives the empty string and consumes 5 bytes |
| Codec.CipherStringShortWide | src/Reader.cpp:85-110 | a prefix 1..126 is followed by that many 16-bit units, each XORed with mask 0xAAAA + i (mod 2^16) and key word i, or gives OutOfRange when they do not fit |
| Codec.CipherStringShortNarrow | src/Reader.cpp:113-142 | a prefix -127..-1 is followed by that many bytes, each XORed with mask 0xAA + i (mod 2^8) and key byte i, then zero-extended, or gives OutOfRange when they do not fit |
| Codec.WideXorTwice | src/Reader.cpp:102-104 | the wide per-unit transform is its own inverse |
| Codec.NarrowXorTwice | src/Reader.cpp:135-137 | the narrow per-byte transform is its own inverse |
| Codec.WideRoundTrip | src/Reader.cpp:85-110 | a wide string of any length 1..2^31-1, enciphered and stored after its length prefix (one byte below 127, else 127 and the i32 length), decodes back to itself and consumes the prefix plus 2·len bytes |
| Codec.NarrowRoundTrip | src/Reader.cpp:113-142 | a narrow string of any length 1..2^31-1, enciphered and stored after its negative length prefix (one byte up to 127, else -128 and the i32 length), decodes back to its bytes zero-extended and consumes the prefix plus len bytes |
| Codec.StringBlock | src/Reader.cpp:161-176 | tags 0/0x73 are the inline cipher string; tags 1/0x1B succeed exactly when the string at base + u32 delta does, yield it and end just after the delta; any other tag is MalformedData |
| Codec.StringBlockSharedTarget | src/Reader.cpp:168-170 | two offset blocks that point at the same target both succeed or both fail, and decode to the same string |
| Codec.WzImageProbe | src/Reader.cpp:147-159 | the probe is true exactly when the bytes are 0x73, the cipher string "Property" and a u16 of 0; it consumes input whatever the outcome |
| WzReader.Reader.constructor | src/Reader.cpp:9-13 | a reader starts at cursor 0 over the given bytes and key |
| WzReader.Reader.Skip | src/Reader.cpp:61 | the cursor moves forward by n |
| WzReader.Reader.SetPosition | src/Reader.cpp:57 | the cursor becomes p |
| WzReader.Reader.GetPosition | src/Reader.cpp:59 | returns the cursor |
| WzReader.Reader.Size | src/Reader.cpp:145 | returns the buffer length |
| WzReader.Reader.ReadByte | src/Reader.cpp:15 | returns the byte at the cursor and advances by exactly 1 |
| WzReader.Reader.Read | include/wz/Reader.hpp:20-26 | returns the little-endian value of the n bytes at the cursor and advances by exactly n |
| WzReader.Reader.ReadI32 | include/wz/Reader.hpp:20-26 | read<i32>: the i32 at the cursor, advancing by 4 |
| WzReader.Reader.ReadI16 | src/Reader.cpp:71 | an i16 whose pattern is the 2 bytes at the cursor, advancing by 2 |
| WzReader.Reader.ReadFixedString | src/Reader.cpp:45-55 | the loop returns FixedString's value and ends where it ends |
| WzReader.Reader.ReadZeroTerminated | src/Reader.cpp:30-43 | the loop returns ZeroTerminated's value or error and ends where it ends |
| WzReader.Reader.ReadCompressedInt | src/Reader.cpp:63-69 | returns CompressedInt's value or error and ends where it ends |
| WzReader.Reader.ReadWideUnits | src/Reader.cpp:97-107 | the wide loop, with its u16 mask register, yields the len deciphered units and advances by 2·len |
| WzReader.Reader.ReadNarrowUnits | src/Reader.cpp:130-140 | the narrow loop, with its u8 mask register, yields the len deciphered units and advances by len |
| WzReader.Reader.ReadWzString | src/Reader.cpp:73-143 | returns CipherString's value or error and ends where it ends |
| WzReader.Reader.ReadWzStringFromOffset | src/Reader.cpp:178-190 | returns the cipher string at the offset and leaves the cursor where it was |
| WzReader.Reader.ReadFromOffset | include/wz/Reader.hpp:70-85 | returns the value at the offset and the cipher string right after it, and leaves the cursor where it was |
| WzReader.Reader.ReadStringBlock | src/Reader.cpp:161-176 | returns StringBlock's value or error and ends where it ends |
| WzReader.Reader.IsWzImage | src/Reader.cpp:147-159 | returns WzImageProbe's verdict or error and ends where it ends |
| WzNode.AppendSpec | src/Node.cpp:34 | children[name].push_back(n): n goes after its same-named siblings, a new name gets [n], and every other name keeps its sequence |
| WzNode.FirstChild | src/Node.cpp:352-359 | null exactly when the name is absent or has no nodes; otherwise the first node under it |
| WzNode.AppendKeepsFirstChild | src/Node.cpp:352-359 | appending another same-named sibling never changes what a name looks up; only a first append under a new name does |
| WzNode.GroupIsNamed | src/Node.cpp:34 | the children map holds a name exactly when something was appended under it, and lists exactly those nodes in append order |
| WzNode.GroupNonEmpty | src/Node.cpp:34 | every name in the children map has at least one node |
| WzNode.Node.constructor | src/Node.cpp:11 | a new node has no parent, no children, an empty path and no value |
| WzNode.Node.AppendChild | src/Node.cpp:31-37 | the child goes last under its name, its parent becomes this node, its path becomes this path + "/" + name, and nothing else changes |
| WzNode.Node.GetChild | src/Node.cpp:352-359 | null exactly when nothing was appended under the name; otherwise the first node appended under it |
| PropSpec.Seek | src/Node.cpp:301 | a size_t position plus a signed size: the sum when it is in range, wrapped by 2^64 when it is negative |
| PropSpec.TruncDiv | src/Node.cpp:295 | C++ division truncates toward zero for negative dividends |
| PropSpec.UncompressedSizeKnown | src/Node.cpp:276-298 | a size exists exactly for the format sums 1, 2, 513 and 517; 1 and 513 give 2·w·h and 2 gives 4·w·h, each wrapped to 32 bits; 517 gives the wrapped w·h divided by 128 toward zero; when 4·w·h fits in an i32 the sizes are the exact products |
| PropSpec.UncompressedSizeExample | src/Node.cpp:276-298 | a 2×3 canvas gives 12, 24, 12 and 0 for the four sums, nothing for 3, and the 517 division truncates toward zero; a 32768×32768 canvas overflows to 0 for sum 2 and to -2^31 for sum 1 |
| PropSpec.CanvasFormatAt | src/Node.cpp:253-256 | reading the width, height, format and format2 fails only with OutOfRange |
| PropSpec.CanvasFormatLayout | src/Node.cpp:253-256 | width, height and format are three compressed ints in a row and format2 is the byte after them; the read succeeds exactly when all four are there, and ends after format2 |
| PropSpec.CanvasHeaderAt | src/Node.cpp:248-304 | reading the canvas header fails only with OutOfRange |
| PropSpec.CanvasHeaderLayout | src/Node.cpp:248-304 | width, height, format and format2 are the format fields read from the bytes; the payload offset is exactly the end of format's compressed int plus 10 (format2, 4 skipped bytes, the i32 blob length, 1 skipped byte), so at least 13 bytes in; size is the i32 blob length minus 1, wrapped to 32 bits; the canvas is encrypted exactly when the u16 at the offset is neither 0x9C78 nor 0xDA78; the uncompressed size follows format + format2; the cursor lands at offset + size |
| PropSpec.CanvasHeaderExample | src/Node.cpp:248-304 | a concrete 2×3 8 bpp canvas with blob length 11 and zlib magic decodes to offset 13, size 10, not encrypted, uncompressed size 12, ending at 23 |
| PropSpec.SoundHeaderAt | src/Node.cpp:314-342 | reading the sound header fails only with OutOfRange |
| PropSpec.SoundHeaderLayout | src/Node.cpp:314-342 | size and length are the two compressed ints after the skipped byte; the payload offset is the end of the length plus 56 + 4 + 22, so 85, 89 or 93 bytes in; the frequency is the i32 26 bytes before it; the cursor lands at offset + size |
| PropSpec.SoundHeaderShort | src/Node.cpp:314-342 | with one-byte size and length, the payload starts 85 bytes in and size and length are those bytes |
| PropSpec.LayoutOfNames | src/Node.cpp:170-236 | each of the six class names selects its own branch, and every other name selects the failing branch |
| PropSpec.Present | src/Node.cpp:66-150 | keeping only the entries that produced a node never lengthens the list |
| PropSpec.PresentLength | src/Node.cpp:100-118 | the kept entries number the decoded entries minus those that produced no node |
| PropSpec.DecodeList | src/Node.cpp:60-155 | a list decodes only after its compressed count decodes, and yields at most max(0, count) nodes |
| PropSpec.ListLength | src/Node.cpp:60-155 | a decoded list yields exactly max(0, count) nodes less one for each float entry that produced none |
| PropSpec.DecodeEntries | src/Node.cpp:63-66 | a list of count entries yields exactly count results, or none when count ≤ 0 |
| PropSpec.DecodeValue | src/Node.cpp:73-150 | only tags 0, 2, 0x0B, 3, 4, 5 and 8 decode here; any tag outside the known set is MalformedData; every tag but 4 always produces a node, and tag 4 produces none only after consuming just its sub-tag; a produced node carries the entry's name |
| PropSpec.DecodeEntry | src/Node.cpp:69-150 | an entry that produces no node is a float entry: its tag byte is 4 |
| PropSpec.DecodeWrapped | src/Node.cpp:137-144 | tag 9 always produces one node, named by the entry |
| PropSpec.DecodeExtended | src/Node.cpp:164-238 | the node carries the given name; nesting beyond the bound is TooDeep |
| PropSpec.ExtendedClassErrors | src/Node.cpp:166-236 | the class-name block's error propagates, and an unknown class is MalformedData |
| PropSpec.DecodeLayout | src/Node.cpp:169-237 | each branch yields a node under the given name, and the unknown branch is MalformedData |
| PropSpec.DecodeSubProperty | src/Node.cpp:170-178 | "Property" yields a SubProperty node under the name |
| PropSpec.DecodeCanvas | src/Node.cpp:179-192 | "Canvas" yields a Canvas node under the name |
| PropSpec.DecodeVector | src/Node.cpp:193-202 | "Shape2D#Vector2D" yields a childless Vector2D node under the name |
| PropSpec.DecodeConvex | src/Node.cpp:203-215 | "Shape2D#Convex2D" yields a Convex2D node under the name |
| PropSpec.ConvexItems | src/Node.cpp:208-213 | M points yield exactly M entries, or none when M ≤ 0 |
| PropSpec.ConvexItemsNamed | src/Node.cpp:209-213 | every point of a Convex2D is appended under the convex node's own name |
| PropSpec.DecodeSound | src/Node.cpp:216-223 | "Sound_DX8" yields a childless Sound node under the name |
| PropSpec.DecodeUol | src/Node.cpp:224-232 | "UOL" yields a childless UOL node under the name |
| PropSpec.EntryTagsKnown | src/Node.cpp:73-150 | an entry decodes only when its tag is 0, 2, 3, 4, 5, 8, 9 or 0x0B, and any other tag byte is MalformedData |
| PropSpec.EntryNamed | src/Node.cpp:69-80 | the node an entry produces is named by the entry's string block |
| PropSpec.EntryFloatDropped | src/Node.cpp:100-118 | tag 4 produces no node exactly when its sub-tag is neither 0x80 nor 0, and then consumes only the sub-tag |
| PropSpec.EntryFloatZero | src/Node.cpp:110-116 | tag 4 with sub-tag 0 is the float 0 and reads no value bytes |
| PropSpec.EntryFloatBits | src/Node.cpp:100-109 | tag 4 with sub-tag 0x80 is the float whose bits are the next 4 bytes, and ends right after them |
| PropSpec.EntryExtendedResync | src/Node.cpp:137-144 | tag 9 succeeds exactly when its extended property does, and ends at the position after the u32 length plus that length, however far the property read |
| PropertyParser.ReadFixed | include/wz/Reader.hpp:20-26 | read<T> that fails instead of reading past the buffer: Fixed's value or error and end |
| PropertyParser.ReadFixedI32 | include/wz/Reader.hpp:20-26 | read<i32> that fails instead of reading past the buffer: FixedI32's value or error and end |
| PropertyParser.ReadCanvasFormat | src/Node.cpp:253-256 | the four format reads return CanvasFormatAt's value or error and end where it ends |
| PropertyParser.ParseCanvasProperty | src/Node.cpp:248-304 | returns CanvasHeaderAt's header or error and leaves the cursor where it says |
| PropertyParser.ParseSoundProperty | src/Node.cpp:314-342 | returns SoundHeaderAt's header or error and leaves the cursor where it says |
| PropertyParser.NewLeaf | src/Node.cpp:77-78 | a new property node with its path set, mirroring a childless entry |
| PropertyParser.AppendBuilt | src/Node.cpp:80 | appending a node built for an entry extends the target's mirrored children by that entry and keeps the earlier ones |
| PropertyParser.ParsePropertyList | src/Node.cpp:60-155 | succeeds or fails as DecodeList does; on success the cursor is where it ends and the nodes appended to the target mirror the decoded entries, after the children it already had |
| PropertyParser.ReadEntries | src/Node.cpp:66-151 | the loop over count entries agrees with DecodeEntries and appends the entries that produced nodes, in order |
| PropertyParser.ReadListedEntry | src/Node.cpp:66-151 | one loop turn agrees with the rest of the list after the entries already read and appends the entry's node when there is one |
| PropertyParser.ReadEntry | src/Node.cpp:69-150 | one entry agrees with DecodeEntry: the same success or error, the same end, and a fresh node built for the entry |
| PropertyParser.ReadWrapped | src/Node.cpp:137-144 | tag 9 agrees with DecodeWrapped: the cursor is put at the end the u32 length gives |
| PropertyParser.ReadValue | src/Node.cpp:73-136 | the leaf tags agree with DecodeValue and build a fresh leaf when it produces one |
| PropertyParser.ReadExtended | src/Node.cpp:164-238 | agrees with DecodeExtended and builds a fresh node for the entry |
| PropertyParser.ReadLayout | src/Node.cpp:170-237 | the class-name branches agree with DecodeLayout |
| PropertyParser.ReadSubProperty | src/Node.cpp:170-178 | agrees with DecodeSubProperty; the nested list becomes the new node's children |
| PropertyParser.ReadCanvas | src/Node.cpp:179-192 | agrees with DecodeCanvas; the canvas header becomes the payload and the nested list, if any, the children |
| PropertyParser.ReadCanvasChildren | src/Node.cpp:184-189 | the flag byte, and the nested list only when the flag is 1, agree with CanvasChildren |
| PropertyParser.ReadVector | src/Node.cpp:193-202 | agrees with DecodeVector |
| PropertyParser.ReadConvex | src/Node.cpp:203-215 | agrees with DecodeConvex; the M points become the convex node's children |
| PropertyParser.ReadConvexItems | src/Node.cpp:208-213 | the loop of M recursive calls agrees with ConvexItems and appends each point to the convex node |
| PropertyParser.ReadConvexItem | src/Node.cpp:209-213 | one loop turn agrees with the rest of the points after those already read |
| PropertyParser.ReadSound | src/Node.cpp:216-223 | agrees with DecodeSound |
| PropertyParser.ReadUol | src/Node.cpp:224-232 | agrees with DecodeUol |
| PathResolver.Find | src/Node.cpp:509 | path.find("/", from): the first separator at or after from, or None when there is none |
| PathResolver.Split | src/Node.cpp:506-515 | splitting always yields at least one component |
| PathResolver.SplitCount | src/Node.cpp:506-515 | splitting yields one component more than there are separators |
| PathResolver.SplitJoin | src/Node.cpp:506-515 | joining the components with "/" gives the path back |
| PathResolver.SplitNoSeparator | src/Node.cpp:506-515 | no component contains a separator |
| PathResolver.JoinSplit | src/Node.cpp:506-515 | splitting a "/"-join of separator-free components gives them back |
| PathResolver.SplitPath | src/Node.cpp:506-515 | the splitting loop computes exactly Split(path) |
| PathResolver.Lookup | src/Node.cpp:520-532 | ".." gives the parent, or InvalidPath at the root; a name is NodeNotFound exactly when nothing was appended under it; otherwise the first such child, replaced by its target once when it is a UOL (DanglingLink when it has none) |
| PathResolver.ImageCache.constructor | src/Node.cpp:535 | the cache starts empty |
| PathResolver.ImageAt | src/Node.cpp:540-542 | a failed image probe is MalformedData, and success implies the probe passed |
| PathResolver.ParseImage | src/Node.cpp:542 | agrees with ImageAt, and on success the image node's children mirror the decoded entries |
| PathResolver.OpenImage | src/Node.cpp:534-546 | a hit returns the cached node without parsing or moving the cursor; a miss parses into a fresh node, stores it under its own empty path, and leaves the looked-up path absent |
| PathResolver.Step | src/Node.cpp:521-551 | one component: the lookup's error ends the walk; a non-Image result is the lookup; an Image is replaced by the cached node on a hit, without parsing or moving the cursor; on a miss it is replaced by a fresh empty-path node stored under the empty path, whose parse agrees with ImageAt at the entry's image offset and whose children then mirror the decoded entries |
| PathResolver.Advance | src/Node.cpp:520-552 | one turn of the walk keeps the components already taken and adds the one just taken |
| PathResolver.FindFromPath | src/Node.cpp:503-555 | the walk visits one node per component from the start node, each reached from the previous by its component; success takes every component; failure stops at the first component whose lookup fails, with that error |
| Version.Hashing | src/Wz.cpp:7 | hashing(v, s) lies in [0, 255] |
| Version.HashingBytes | src/Wz.cpp:7 | the four bytes hashing picks out make up the whole word |
| Version.AutoHash | src/Wz.cpp:9-12 | auto_hash lies in [0, 255]; the AUTO_HASH macro (lines 4-5) computes the same expression, since & binds tighter than ^ |
| Version.AutoHashFold | src/Wz.cpp:9-12 | XORing auto_hash(v) with the four bytes of v gives 0xFF |
| Version.Decimal | src/Wz.cpp:23 | the decimal text is digits only, without leading zeros |
| Version.DecimalRoundTrip | src/Wz.cpp:23 | reading the decimal text of n gives n back |
| Version.ToString | src/Wz.cpp:23 | std::to_string starts with '-' exactly for negative values |
| Version.VersionHash | src/Wz.cpp:22-30 | the hash fold stays within 32 bits |
| Version.CheckByte | src/Wz.cpp:32 | the check byte is a byte |
| Version.VersionCheck | src/Wz.cpp:32-38 | the result is a 32-bit value |
| Version.HashStepMod | src/Wz.cpp:29 | one hash step maps congruent values mod 2^32 to congruent values |
| Version.GetVersionHash | src/Wz.cpp:20-39 | the loop with its wrapping i32 accumulator returns the hash when encryptedVersion is the check byte, and 0 otherwise |
| Version.CheckByteAccepted | src/Wz.cpp:32-35 | the check byte of a version is accepted, and the hash is returned |
| Version.OutOfByteRejected | src/Wz.cpp:32-38 | any encryptedVersion outside [0, 255] yields 0 |
| Version.Version83 | src/Wz.cpp:27-38 | "83" hashes to 1876 with check byte 172, so (172, 83) gives 1876 and (173, 83) gives 0 |

## Left out

- Memory mapping (`src/Reader.cpp:9-13`): the buffer is a given byte sequence. The ignored mapping error is not modelled.
- Keystream generation and `set_key` (`src/Reader.cpp:192-195`): Keys.hpp is not part of this model. The keystream is a total function from offsets to bytes, because the original key object grows on demand, so there is no "key too short" case.
- `read_bytes` (`src/Reader.cpp:17-28`): not modelled. Nothing in the core calls it.
- Reads past the buffer: the original reads unchecked memory (`include/wz/Reader.hpp:23`, `src/Reader.cpp:15`). The model returns OutOfRange. The cursor primitives `WzReader.Reader.ReadByte`, `Read`, `ReadI32` and `ReadI16` require the bytes instead.
- `assert(0)` on an unknown string-block tag, entry tag or class name (`src/Reader.cpp:172`, `src/Node.cpp:148`, `src/Node.cpp:236`): the model returns MalformedData and stops. The original, built without asserts, would return an empty string or skip the entry and go on.
- Floating-point values (`src/Node.cpp:105`, `src/Node.cpp:121`): kept as their raw 32- and 64-bit patterns, with no float arithmetic.
- Nesting depth: the parser functions and methods take a depth bound `d`. Nesting deeper than the bound gives TooDeep. The original recurses without bound.
- `Directory::parse_image`, `File`, `get_key` and `get_iv` are not part of this model.
  - `PathResolver.ParseImage` stands in for `parse_image`: it seeks to the directory entry's `imageOffset`, runs the image probe and parses the property list, with string blocks relative to that offset.
  - The original ignores whether the parse succeeded (`src/Node.cpp:542`), and so does `PathResolver.OpenImage`.
- `PathResolver.ParseImage`: the stand-in never sets the image node's `path`, so the node stays under the empty path. If `Directory::parse_image` set it to the looked-up path, the cache would store the node under that path and later lookups of it would hit; the model does not cover that case.
- `get_uol` (Property.hpp) is not part of this model. A UOL node carries its resolved target in the field `link`, and a null target is DanglingLink where the original would dereference null.
- `..` at the root: the original sets the node to null, then returns null or dereferences it on the next component. The model stops with InvalidPath.
- A missing child: the original throws "Node not found". The model returns NodeNotFound.
- `operator[]` (`src/Node.cpp:365-430`) is the same walk as `find_from_path`, returning a reference. `PathResolver.FindFromPath` models both.
- `PathResolver.FindFromPath`: for a component that opens an Image, the cache outcome and the parse are stated by `Step` and `OpenImage`, not in FindFromPath's own ensures. The trail records only that the lookup succeeded.
- The Image cache is process-wide and not thread-safe in the original (`src/Node.cpp:535`). Here it is an `ImageCache` object passed to the walk, and concurrency is not modelled.
- The recursive destructor (`src/Node.cpp:19-28`), `get_children`, `begin`/`end`, `children_count`, `get_type`, `is_property` and the `std::string` overloads are memory management or plain accessors. They are left out.
- `Version.GetVersionHash`: the signed overflow of `32 * versionHash` is undefined behaviour in C++. It is modelled as two's-complement wrap-around.
- `Version.VersionHash`, `Version.CheckByte` and `Version.VersionCheck` only bound their results in their own contracts. What they mean is stated by `GetVersionHash`, `CheckByteAccepted`, `OutOfByteRejected` and `Version83`.
- `PropSpec.CanvasHeaderAt`, `PropSpec.SoundHeaderAt` and `PropSpec.CanvasFormatAt` only state their error in their own contracts. Their layout is stated by `CanvasFormatLayout`, `CanvasHeaderLayout`, `CanvasHeaderExample`, `SoundHeaderLayout` and `SoundHeaderShort`.
