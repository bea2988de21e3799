# Rip Service core, modelled in Dafny

Rip Service (`rsvc`) rips audio CDs, converts audio files and edits their
tags. This project models the parts of it that consume bytes or strings and
either fill an output or fail with a message, and proves what each promises:

- the ID3v2 tag reader and writer (`Id3Table`, `Id3Frames`, `Id3Read`,
  `Id3Write`, `Id3`) and the text decoders it relies on (`Encoding`);
- the generic tag collection and `%`-code path formatter (`Tag`), the
  doubly linked list macros (`LinkedList`, with real node objects) and the
  Vorbis comment list (`Comments`);
- the media probes: RIFF/WAVE (`Wav`), JPEG (`Jpeg`), PNG (`Png`), GIF
  (`Gif`), magic-number detection (`ContainerFormats`), Ogg page and packet
  ordering with Vorbis and Opus headers and comments (`Ogg`, `Vorbis`,
  `Opus`) and the MP3 decoder callbacks (`Mad`);
- CD table-of-contents arithmetic (`Cd`), the disc listing of `rsvc print`
  (`CdPrint`) and `rsvc info` (`InfoCommand`);
- command-line handling: the option tokenizer (`Options`), SI numbers
  (`SiNumbers`), the `rsvc` and `ripservice` command dispatch (`Rsvc`,
  `Ripservice`), `rsvc convert` (`ConvertCommand`), encode-format and
  container registries (`EncodeFormats`, `ContainerFormats`), and the
  `cloak` tag editor (`CloakOptions`, `CloakMove`, `Cloak`, `CloakApply`);
- path and file utilities over an abstract file system (`Files`, `Paths`,
  `Unix`, `Posix`, `UnixLinux`), device names and disc profiles
  (`DiscLinux`) and the Core Audio configuration choices (`CoreAudio`).

`Common` holds the byte, integer and C-library helpers (`strtol`,
`printf`-style decimal and hex) the modules share.

Callbacks that report failure become `Result` values; callbacks that
receive items become the sequence of items delivered, together with a
`stops` predicate for the caller's stop block. File descriptors become byte
sequences or the `Files.FileSystem` object. Foreign calls (libogg,
libvorbis, libopus, libmad, libdiscid, Core Audio, `rsvc_audio_info_validate`,
`CDConvertMSFToLBA`) become function parameters.

Where a header's documentation and the code disagree, the model follows the
code: `include/rsvc/tag.h` says the `%c` and `%e` codes pad to SEASONTOTAL and
EPISODETOTAL, but src/rsvc/tag.c pads them to DISCTOTAL and TRACKTOTAL
(`Tag.EpisodePaddedByTrackTotal`, `Tag.EpisodeTotalIgnored`).

Where the code as written evidently does not do what was intended, the
model keeps both: a member named `…AsWritten` follows the code, a lemma
exhibits the input that shows the difference, and the corrected member,
which the rest of the model uses, carries the intended property. These are
listed under "## Findings".

## Model

| member | source | states |
|---|---|---|
| Gif.Info | src/rsvc/gif.c:29-41 | fewer than 11 bytes fail with "unexpected eof" after the path, and only then; otherwise the width and height are the little-endian words at offsets 6 and 8, the depth is 8 and the colour table holds 2 to 256 entries |
| Gif.HeaderRoundTrip | src/rsvc/gif.c:29-41 | the probe reads back the width, height and colour-table size that a GIF89a header holds, whatever follows it |
| Gif.PaletteAsWrittenDiffers | src/rsvc/gif.c:39 | the shift `2 << (packed & 0x08)` reports a 256-entry table (packed byte 0xf7) as 2 entries and a packed byte 0x08 as 512 entries |
| ContainerFormats.Registry.constructor | src/rsvc/format.c:35-37 | the registry starts empty |
| ContainerFormats.Registry.Register | src/rsvc/format.c:39-50 | the new format is appended after every format registered before |
| ContainerFormats.Registry.Named | src/rsvc/format.c:52-60 | the first registered format with that name, or none when no format has it |
| ContainerFormats.Registry.Detect | src/rsvc/format.c:62-97 | a directory fails with "is a directory"; otherwise the result is the first registered format whose magic matches the file's first bytes ('?' matching any byte, a file shorter than the magic never matching), and "couldn't detect file type" exactly when none does |
| ContainerFormats.MagicMatches | src/rsvc/format.c:81-88 | the byte-by-byte comparison agrees with the match predicate |
| ContainerFormats.MagicPrefixMatches | src/rsvc/format.c:74-91 | a file that begins with bytes matching the magic matches whatever follows them |
| EncodeFormats.Registry.constructor | src/rsvc/encode.c:39-41 | the registry starts empty |
| EncodeFormats.Registry.Register | src/rsvc/encode.c:43-54 | the new format, with its name, extension and losslessness, is appended after every format registered before |
| EncodeFormats.Registry.Each | src/rsvc/encode.c:67-75 | the block sees the formats in order up to and including the first one on which it stops, and the result is false exactly when some format stops it |
| EncodeFormats.Registry.Named | src/rsvc/encode.c:56-65 | the first registered format with that name, and none exactly when no format has it |
| DiscLinux.AbbrevDev | src/rsvc/disc_linux.c:50-57 | a node directly under "/dev/" is shortened to its name, which holds no '/'; any other path is returned unchanged |
| DiscLinux.AbbrevDevOfDevName | src/rsvc/disc_linux.c:50-57 | "/dev/" followed by a name without '/' abbreviates to that name |
| DiscLinux.ProfileFamilies | src/rsvc/disc_linux.c:59-94 | the MMC profiles 0x08-0x0a are CDs, DVD profiles lie in 0x10-0x2f, Blu-ray in 0x40-0x4f, HD DVD in 0x50-0x5f, and any profile outside 0-0x5f is no disc |
| DiscLinux.FdToDiscType | src/rsvc/disc_linux.c:96-121 | a failing GET CONFIGURATION command means no disc; otherwise the disc type is that of the big-endian profile in bytes 6 and 7 of the reply |
| DiscLinux.ConfigurationHeader | src/rsvc/disc_linux.c:96-121 | the eight-byte feature header a drive replies with |
| DiscLinux.FdReadsProfile | src/rsvc/disc_linux.c:96-121 | the disc type read from a drive's feature header is the type of the current profile it holds |
| DiscLinux.PathToDiscType | src/rsvc/disc_linux.c:123-132 | a device that cannot be opened has no disc; otherwise the type is that of the drive's reply |
| CoreAudio.FourCC | src/rsvc/core-audio.c:80-89 | the four bytes of the status, most significant first, then a NUL |
| CoreAudio.FourCCRoundTrip | src/rsvc/core-audio.c:80-89 | reading the four bytes back big-endian gives the status |
| CoreAudio.StatusMessageSpells | src/rsvc/core-audio.c:124 | a status made of four non-NUL bytes prints all four after "some error: " |
| CoreAudio.Plan | src/rsvc/core-audio.c:114-203 | the configuration calls: the bit rate is set exactly for codecs other than Apple Lossless |
| CoreAudio.Configure | src/rsvc/core-audio.c:98-203 | a failed validation makes no call; otherwise the calls made are a prefix of the plan, all of it on success with nothing released; a failure stops at the failing call and releases what the earlier calls set up (the extended file, then the audio file) |
| CoreAudio.Run | src/rsvc/core-audio.c:120-202 | the calls run in order until the first non-zero status or a NULL converter; on failure the cleanup block in force before the failing call runs |
| CoreAudio.AppleLosslessConfiguration | src/rsvc/core-audio.c:114-116 | Apple Lossless gets the 16-bit-source flag and never has its bit rate set |
| CoreAudio.LossyConfiguration | src/rsvc/core-audio.c:162-203 | a lossy codec whose calls all succeed is configured with its bit rate |
| CoreAudio.AllSucceed | src/rsvc/core-audio.c:120-203 | when every call returns `noErr` and the converter exists, every call is made and nothing is released |
| Gif.Palette | src/rsvc/gif.c:39 | as intended: a global colour table has from 2 to 256 entries |
| Paths.DirnamePrefix | src/rsvc/unix.c:199-214 | the parent is ".", "/", or a proper prefix of the path immediately followed by a '/' |
| Paths.DirnameFixedPoints | src/rsvc/unix.c:199-214 | "." and "/" are the only paths that are their own parent (both directions); every other path has a parent of strictly lower rank, so `rsvc_makedirs` and `rsvc_trimdirs` terminate |
| Paths.DirnameBare | src/rsvc/unix.c:200-202 | a name without '/' has parent "." |
| Paths.DirnameRoot | src/rsvc/unix.c:203-204 | a name directly under the root has parent "/" |
| Paths.DirnameChild | src/rsvc/unix.c:209-212 | dropping a non-empty last component and the '/' before it gives the directory |
| Paths.DirnameTrailingSlash | src/rsvc/unix.c:205-208 | a trailing '/' does not change the parent (the recursion on the path without it) |
| Unix.DirPart | src/rsvc/unix.c:57-63 | the directory part is a prefix of the base that is empty or ends in '/' |
| Unix.FilePart | src/rsvc/unix.c:57-63 | the directory part followed by the file part gives back the base |
| Unix.FilePartHasNoSlash | src/rsvc/unix.c:57-63 | the file part holds no '/' |
| Unix.Stem | src/rsvc/unix.c:66-72 | the stem is a prefix of the file name |
| Unix.Rest | src/rsvc/unix.c:66-77 | the stem followed by the rest gives back the file name |
| Unix.StemSplit | src/rsvc/unix.c:66-72 | with a non-empty stem the rest is the extension: it starts with the last '.' and holds no other |
| Unix.TempNames | src/rsvc/unix.c:74-77 | one candidate name per `mktemp` draw |
| Unix.TempNamesAt | src/rsvc/unix.c:74-77 | the i-th name tried is built from the i-th draw |
| Unix.TempNameLayout | src/rsvc/unix.c:47-77 | the temp name is directory part, '.', stem, '.', the ten drawn characters and the rest; removing the twelve added characters gives back the base, and the length check `strlen + 12 < MAXPATHLEN` bounds the name |
| Unix.TempNameSameDirectory | src/rsvc/unix.c:47-77 | the temp name of a file in a directory has that same directory as its parent |
| Unix.Settled | src/rsvc/unix.c:80-95 | the index of the first draw whose exclusive create is not retried: every earlier draw failed with EEXIST, EINTR or EISDIR, and that one did not |
| Unix.Temp | src/rsvc/unix.c:47-99 | a base too long for MAXPATHLEN fails with "File name too long" and touches nothing; otherwise the first settled draw decides: success opens a new empty file under that name with a fresh descriptor, any other error is reported with the name and changes nothing |
| Unix.Chain | src/rsvc/unix.c:171-189 | a path and all of its ancestors, the path included |
| Unix.AncestorsAreDirectories | src/rsvc/unix.c:171-189 | in a well-formed tree every proper ancestor of an existing entry is a directory |
| Unix.MakeDirs | src/rsvc/unix.c:171-189 | only directories on the path's ancestor chain are created, files and descriptors are untouched; on success the path exists; an error names an ancestor; an existing path succeeds and changes nothing |
| Unix.MakeDirsTwice | src/rsvc/unix.c:171-189 | a second call after a successful one also succeeds |
| Unix.TrimmedWithinChain | src/rsvc/unix.c:191-197 | trimming removes only existing directories on the path's ancestor chain, never "." or "/" |
| Unix.TrimKeepsTree | src/rsvc/unix.c:191-197 | the tree stays well-formed after the trimmed directories are removed |
| Unix.TrimUndoesMkdir | src/rsvc/unix.c:191-197 | trimming right after a successful `mkdir` removes the new directory and then goes on as trimming its parent would |
| Unix.TrimDirs | src/rsvc/unix.c:191-197 | the directories removed are exactly the trimmed set: the path, then its ancestors, until an `rmdir` fails |
| Unix.Mv | src/rsvc/unix.c:159-169 | a rename that succeeds moves the file; a rename error other than EXDEV is reported and changes nothing; only on EXDEV the file is copied and the source removed; on success the target holds the source's contents and nothing else changed |
| Posix.CpOutcomes | src/rsvc/posix.c:79-96 | the copy succeeds iff the source is a readable file, the target's directory is writable and no fault is injected; on success the target holds the source (empty when source and target are the same path, since the target is truncated first); a failing source open leaves the files untouched; a failing copy leaves an empty target |
| Posix.AgreesWithLinux | src/rsvc/posix.c:79-96 | with no fault injected, this copy and the one of src/rsvc/unix_linux.c agree on success, on the message and on the files left behind |
| Posix.Cp | src/rsvc/posix.c:79-96 | the descriptor table after the call is the one before: every exit closes exactly the descriptors opened; the result and the files left are those of the first failing step |
| Posix.Mv | src/rsvc/posix.c:98-108 | rename first; a rename error other than EXDEV is reported and changes nothing; only EXDEV falls back to the copy and then the removal, and a failing copy is reported with the files it leaves; on success the target holds the source and nothing else changed |
| UnixLinux.DevPath | src/rsvc/unix_linux.c:34-46 | a path with a '/' is opened as it is; a bare name becomes "/dev/" + name; it fails (ENAMETOOLONG) exactly when a bare name does not fit PATH_MAX with its NUL |
| UnixLinux.DevPathInvertsAbbrev | src/rsvc/unix_linux.c:34-46 | a device node that fits PATH_MAX opens again from the abbreviation `abbrev_dev` gives it |
| UnixLinux.AbbrevInvertsDevPath | src/rsvc/unix_linux.c:38-45 | a bare name opens under /dev, and that node abbreviates back to the name |
| UnixLinux.OpenDev | src/rsvc/unix_linux.c:34-46 | a name too long fails before any `open` and changes nothing; otherwise the node is opened, and an error is reported with its path |
| UnixLinux.CpOutcomes | src/rsvc/unix_linux.c:55-82 | success iff the source opens, `fstat`, `fchmod`, `futimes` and `sendfile` do not fail and the target can be opened; on success the target holds the source; a failure before the target is opened leaves the files untouched, a later one leaves an empty target |
| UnixLinux.CpSteps | src/rsvc/unix_linux.c:55-77 | the steps run in order open source, `fstat`, open target, `fchmod`, `futimes`, `sendfile`, stopping at the first failure, whose message is the result |
| UnixLinux.Cp | src/rsvc/unix_linux.c:55-82 | as `CpSteps`, and both descriptors are closed whatever happened, so the descriptor table is unchanged |
| LinkedList.Node.constructor | src/rsvc/list.h:24-33 | a fresh node holds its value and is linked to nothing |
| LinkedList.List.constructor | src/rsvc/list.h:24-33 | a list starts with no head, no tail and no nodes |
| LinkedList.List.Push | src/rsvc/list.h:24-33 | the node is appended: into an empty list it becomes head and tail; otherwise the old tail links forward to it, it links back to the old tail and becomes the tail; the list stays doubly linked |
| LinkedList.List.Erase | src/rsvc/list.h:35-48 | the node is unlinked from wherever it sits: the nodes and the values are those before with that one position removed, and the list stays doubly linked |
| LinkedList.List.Unlink | src/rsvc/list.h:37-46 | the four link updates: the head or the predecessor now skips the node, the tail or the successor now points back past it, and no other link changes |
| LinkedList.List.Clear | src/rsvc/list.h:50-56 | the block sees every value from head to tail, in order, and the list ends empty |
| LinkedList.List.HeadLinks | src/rsvc/list.h:24-56 | a non-empty list's head is its first node, has no predecessor and links to the second node |
| LinkedList.List.Walks | src/rsvc/list.h:24-56 | following `next` from the head visits exactly the nodes in order, and following `prev` from the tail visits them in reverse |
| LinkedList.List.NextWalkFrom | src/rsvc/list.h:24-56 | following `next` from any node visits the rest of the list |
| LinkedList.List.PrevWalkFrom | src/rsvc/list.h:24-56 | following `prev` from any node visits the list up to it, backwards |
| LinkedList.LinkedSnoc | src/rsvc/list.h:26-29 | linking a new node after the tail keeps a distinct, doubly linked chain |
| LinkedList.LinkedSplice | src/rsvc/list.h:37-46 | bypassing one node keeps the remaining nodes a distinct, doubly linked chain |
| LinkedList.WithoutAt | src/rsvc/list.h:35-48 | removing the node at a position of a chain without repeats removes exactly that position |
| Encoding.Utf8Encode | src/rsvc/encoding.c:23-39 | the encoding of a code point is 1, 2, 3 or 4 bytes long by its range, and empty above U+10FFFF |
| Encoding.Utf8EncodeRoundTrip | src/rsvc/encoding.c:23-39 | every code point below 0x110000 reads back from its encoding as itself |
| Encoding.Utf8OutAsWrittenCollides | src/rsvc/encoding.c:27-28 | as written, U+00C9 and U+00E9 are written as the same two bytes, which do not read back as U+00E9; the intended encoding of U+00E9 is C3 A9 |
| Encoding.PutRune | src/rsvc/encoding.c:23-39 | the encoding of the rune is written after the bytes already output, which stay as they were, and the output index advances by its length |
| Encoding.Latin1Length | src/rsvc/encoding.c:41-51 | the UTF-8 text of Latin-1 input is one byte per ASCII byte and two per high byte, so never longer than twice the input |
| Encoding.Latin1CapacityAsWrittenOverflows | src/rsvc/encoding.c:43 | a single high byte already needs two bytes, one more than the `2 * size - 1` bytes allocated |
| Encoding.DecodeLatin1 | src/rsvc/encoding.c:41-51 | Latin-1 decoding never fails: each byte becomes the UTF-8 encoding of its own code point, in order |
| Encoding.Units | src/rsvc/encoding.c:66-74 | an even-length buffer holds half as many 16-bit units, read in the given byte order |
| Encoding.PrependTwice | src/rsvc/encoding.c:66-96 | output emitted in two steps is the concatenation of both, and an error stays an error |
| Encoding.Utf16PairAsWrittenDiffers | src/rsvc/encoding.c:79-82 | as written the surrogate pair D83D DE00 (U+1F600) decodes to U+FE00, because 0x10000 is never added; the intended decoder gives U+1F600 |
| Encoding.OrPairExample | src/rsvc/encoding.c:81 | the or-combination of the pair's halves is 0xFE00 |
| Encoding.Utf16UnpairedAsWrittenAccepted | src/rsvc/encoding.c:75-83 | as written a high surrogate followed by 'A' is accepted (the surrogate stays pending and a later low surrogate completes it); the intended decoder rejects it |
| Encoding.Utf16RoundTrip | src/rsvc/encoding.c:53-104 | decoding undoes UTF-16 encoding (section 2.1 of RFC 2781): any text of scalar values comes back as its UTF-8 form |
| Encoding.Utf16SurrogateErrors | src/rsvc/encoding.c:75-99 | a lone low surrogate, two high surrogates in a row and a trailing high surrogate are all errors |
| Encoding.DecodeUtf16 | src/rsvc/encoding.c:53-104 | an odd byte count is "invalid UTF-16 data"; otherwise the result is the intended decoding of the code units in that byte order |
| Encoding.DecodeUtf16Bom | src/rsvc/encoding.c:116-128 | FE FF selects big-endian and FF FE little-endian decoding of the bytes after the mark; no mark is "invalid UTF-16 data" |
| Encoding.Utf8LeadAsWrittenDiffers | src/rsvc/encoding.c:151 | as written the valid encoding of U+40000 (F1 80 80 80) is rejected and F8 80 80 80 accepted; the intended check does the opposite |
| Encoding.Utf8EncodeShaped | src/rsvc/encoding.c:130-165 | the UTF-8 check accepts every encoded code point and then goes on with what follows it |
| Encoding.ContinuationsShaped | src/rsvc/encoding.c:140-145 | a run of owed continuation bytes is consumed and the check resumes after it |
| Encoding.LeadRange | src/rsvc/encoding.c:146-156 | lead bytes 00-7F, C0-DF, E0-EF and F0-F7 announce 0, 1, 2 and 3 continuation bytes |
| Encoding.DecodeUtf8 | src/rsvc/encoding.c:130-165 | the check succeeds exactly on well-shaped input (leads followed by the continuation bytes they announce, none owed at the end) and then returns the input unchanged; otherwise "invalid UTF-8 data" |
| Comments.Names | src/rsvc/comment.c:125-138 | the names of the comments, position by position |
| Comments.Values | src/rsvc/comment.c:125-138 | the values of the comments, position by position |
| Comments.WithoutSplits | src/rsvc/comment.c:84-93 | every comment is either kept by clearing a name or has that name |
| Comments.WithoutLeavesNone | src/rsvc/comment.c:84-93 | after clearing a name no comment has it |
| Comments.WithoutMembers | src/rsvc/comment.c:84-93 | a comment survives clearing exactly when it was there and has another name |
| Comments.WithoutKeepsOthers | src/rsvc/comment.c:84-93 | clearing one name leaves the comments of every other name as they were, in order |
| Comments.NamedAppend | src/rsvc/comment.c:150-164 | the comments of a name in two lists joined are those of each, joined |
| Comments.WithoutFront | src/rsvc/comment.c:84-93 | clearing walks the list front to back, dropping each comment with the name |
| Comments.ClearAsWrittenFails | src/rsvc/comment.c:84-93 | as written, clearing dereferences NULL exactly when the last comment has the name; otherwise it removes the comments with that name |
| Comments.ClearAsWrittenSingle | src/rsvc/comment.c:84-93 | clearing the only comment, which has the name, fails as written, while the intended result is the empty list |
| Comments.EachAsWrittenStopCrashes | src/rsvc/comment.c:166-173 | as written, stopping sets the cursor to NULL and the loop step then dereferences it: the walk fails exactly when the block stops on some comment |
| Comments.CommentList.constructor | src/rsvc/comment.c:48-51 | a new list holds no comments |
| Comments.CommentList.Copy | src/rsvc/comment.c:53-69 | the copy is a new list holding the same comments in the same order |
| Comments.CommentList.Clear | src/rsvc/comment.c:84-93 | the comments with the name are removed and every other comment kept, in order, including when the last comment has the name |
| Comments.CommentList.Add | src/rsvc/comment.c:95-104 | the comment is appended at the end |
| Comments.CommentList.AddInt | src/rsvc/comment.c:106-110 | the comment appended holds the decimal form of the value, with a '-' for negatives |
| Comments.CommentList.Set | src/rsvc/comment.c:112-115 | the comments with the name are replaced by one comment with the new value, at the end; it is the only one with that name |
| Comments.CommentList.Size | src/rsvc/comment.c:117-123 | the number of comments |
| Comments.CommentList.Get | src/rsvc/comment.c:125-138 | succeeds exactly when the comments fit the capacity; the names and values returned are those of the first comments, in order, all of them on success and `capacity` of them otherwise |
| Comments.CommentList.Count | src/rsvc/comment.c:140-148 | the number of comments with the name |
| Comments.CommentList.Find | src/rsvc/comment.c:150-164 | succeeds exactly when the comments with the name fit the capacity; the values returned are theirs, in order, all of them on success and `capacity` of them otherwise |
| Comments.CommentList.Each | src/rsvc/comment.c:166-173 | the block sees the comments in order up to and including the one it stops on, and nothing after it; `stopped` says whether some comment stopped it |
| Comments.NamedPrefix | src/rsvc/comment.c:150-164 | the comments with a name split at any position into those before and those after |
| Comments.SetLeavesOne | src/rsvc/comment.c:112-115 | after a set exactly one comment has the name, holding the new value |
| Comments.AddCounts | src/rsvc/comment.c:95-104 | adding a comment raises its name's count by one and leaves every other count as it was |
| Tag.NameSpan | src/rsvc/tag.c:39-41 | the length of the leading run of upper-case letters and '_' |
| Tag.NameIsValid | src/rsvc/tag.c:39-41 | a name is valid exactly when every character is an upper-case letter or '_' |
| Tag.SameValidName | src/rsvc/tag.c:484 | between valid names, the case-insensitive comparison is equality |
| Tag.ImageCheck | src/rsvc/tag.c:111-141 | a picture operation is allowed exactly on writable tags of a format with pictures; a format without them fails with "unsupported format" before the writability check |
| Tag.Unnamed | src/rsvc/tag.c:477-490 | removal keeps only pairs whose name differs, ignoring case, from the removed one, each taken from the list |
| Tag.UnnamedKeeps | src/rsvc/tag.c:477-490 | when no pair has the name, removal changes nothing |
| Tag.UnnamedTwice | src/rsvc/tag.c:477-490 | removing the same name twice removes nothing more |
| Tag.AddablePrefix | src/rsvc/tag.c:446-457 | the pairs a copy adds are the source's pairs up to the first with an invalid name, and all of them when every name is valid |
| Tag.ChecksFirst | src/rsvc/tag.c:55-93 | whatever the format, read-only tags refuse every edit with "tags opened in read-only mode" and save as a success without calling it; an invalid name is refused before the format is called; a valid name on writable tags reaches the format's remove or add unchanged |
| Tag.DetachedEdits | src/rsvc/tag.c:477-560 | the in-memory methods: the clear leaves no pair, a removal drops the pairs with the name, an addition appends, a save succeeds |
| Tag.Tags.constructor | src/rsvc/tag.c:570-588 | new tags are empty, writable and use the in-memory methods |
| Tag.Tags.Open | include/rsvc/tag.h:28-46 | tags opened by a format hold its methods, the writability it was asked for and the pairs read |
| Tag.Tags.Save | src/rsvc/tag.c:63-69 | read-only tags save nothing and succeed; writable tags answer as their format's save, which for in-memory tags always succeeds |
| Tag.Tags.Clear | src/rsvc/tag.c:75-80 | read-only tags refuse ("tags opened in read-only mode") and keep their pairs; writable tags take what their format's remove-all gives, and in-memory tags end empty |
| Tag.Tags.Remove | src/rsvc/tag.c:82-86 | read-only tags refuse first, then an invalid name is refused naming it, in both cases changing nothing; otherwise the format's remove decides, and in-memory tags lose every pair with the name, ignoring case, the others keeping their order |
| Tag.Tags.Add | src/rsvc/tag.c:88-93 | the same two refusals; otherwise the format's add decides, and in-memory tags get the pair appended with nothing else changed |
| Tag.EditsKeepNames | src/rsvc/tag.c:82-93 | removing and adding keep every name in the list valid |
| Tag.Copy | src/rsvc/tag.c:446-457 | the destination is cleared through its format and a refused clear is the result, pairs unchanged; otherwise the source's pairs are added one by one until one is refused and the copy succeeds even then; for in-memory tags the destination ends with the source's pairs up to the first invalid name, read-only tags refuse, and copying tags onto themselves leaves them empty |
| Tag.DetachedAddAll | src/rsvc/tag.c:446-457 | adding a list to in-memory tags appends its pairs up to the first with an invalid name |
| Tag.LiteralSpan | src/rsvc/tag.c:251 | the leading run of text holding neither '%' nor '/' |
| Tag.SlashSpan | src/rsvc/tag.c:261 | the leading run of '/' |
| Tag.FirstToken | src/rsvc/tag.c:250-283 | the first token of the format at a position: it consumes at least one character and spells exactly what it consumed |
| Tag.TokensFrom | src/rsvc/tag.c:246-286 | the tokens of the rest of the format, or its first bad code |
| Tag.TokensFromStep | src/rsvc/tag.c:250-284 | the token list is the first token followed by the tokens after it |
| Tag.FormatRoundTrip | src/rsvc/tag.c:246-286 | a format that parses is spelled back exactly by its tokens: nothing is lost or invented |
| Tag.ParseFormat | src/rsvc/tag.c:246-286 | the loop hands out the tokens one after another and stops at the first bad code |
| Tag.ValidateFormat | src/rsvc/tag.c:438-444 | a format is valid exactly when it parses, and the error is the parse's own |
| Tag.ParseExample | src/rsvc/tag.c:246-286 | "%b//%Ax%%" parses into two codes, one run of two slashes, the text "x" and an escaped '%' |
| Tag.UnknownCodeExample | src/rsvc/tag.c:274-277 | an unknown printable code fails with the format and "invalid format code %" followed by the code |
| Tag.TrailingPercentExample | src/rsvc/tag.c:278-281 | a '%' at the very end fails as code NUL, printed in octal |
| Tag.IsCanonicalInt | src/rsvc/tag.c:197-210 | true exactly for "0" and for a digit 1 to 9 followed by digits |
| Tag.CanonicalIsDecimal | src/rsvc/tag.c:197-210 | a string is canonical exactly when it is the decimal spelling of its own value |
| Tag.LeadingDigitValue | src/rsvc/tag.c:201-207 | digits that do not start with '0' have a value of at least one |
| Tag.Zeros | src/rsvc/tag.c:390-394 | the padding is zeros only, and brings a canonical number up to the precision; other values, and precision 0, get none |
| Tag.ZerosKeepValue | src/rsvc/tag.c:390-394 | padding a canonical number keeps it all digits and keeps its value |
| Tag.Escaped | src/rsvc/tag.c:306-319 | escaping keeps the length and maps each character on its own |
| Tag.EscapedSafe | src/rsvc/tag.c:306-319 | an escaped value holds no '/' and no '.', a character is kept exactly when it is non-ASCII, whitelisted or '_', and escaping twice changes nothing more |
| Tag.EscapeForPath | src/rsvc/tag.c:306-319 | the array ends holding the escaped form of what it held |
| Tag.Values | src/rsvc/tag.c:380-400 | the non-empty values written for a code are drawn from the pairs, never empty |
| Tag.ValuesNext | src/rsvc/tag.c:380-400 | one more pair adds its value exactly when its name matches, ignoring case, and the value is non-empty |
| Tag.Precision | src/rsvc/tag.c:212-220 | the precision is at least the minimum and at least every matching value's length, and it is the minimum or one such length |
| Tag.MaxPrecision | src/rsvc/tag.c:212-220 | the walk computes that precision |
| Tag.AnyTags | src/rsvc/tag.c:222-230 | true exactly when some pair has the name, ignoring case |
| Tag.ClippedCatKeeps | src/rsvc/tag.c:292-304 | appending keeps the buffer the longest prefix that fits of everything asked for, and the needed size counts all of it |
| Tag.ClippedAll | src/rsvc/tag.c:292-304 | a buffer with room for everything asked for holds all of it |
| Tag.JoinedNext | src/rsvc/tag.c:385-397 | each further value of a code adds ", " (the first adds the prefix), its padding and its escaped form |
| Tag.WriteZeros | src/rsvc/tag.c:390-394 | the zeros are appended through the clipping buffer |
| Tag.WriteValue | src/rsvc/tag.c:385-397 | the lead, the padding and the escaped value are appended through the clipping buffer |
| Tag.WriteValues | src/rsvc/tag.c:379-400 | all values of the code are appended, joined as above, and the count is their number |
| Tag.Apply | src/rsvc/tag.c:346-407 | one token is written as the expansion step defines it and the context moves on as that step says |
| Tag.AppendExtension | src/rsvc/tag.c:412-415 | '.' and the extension are appended when there is one, nothing otherwise |
| Tag.Snpathf | src/rsvc/tag.c:332-421 | a bad format fails with the parse error; otherwise the buffer holds the longest prefix of the full path (expansion, then ".extension") that fits before the NUL, and the needed size is the full path's length |
| Tag.Strf | src/rsvc/tag.c:423-436 | the result is the whole path: the sizing pass makes the buffer just large enough |
| Tag.TextResetsSeparator | src/rsvc/tag.c:359-368 | after text, a code other than track or episode number gets no separator |
| Tag.EmptyDirectoryDropped | src/rsvc/tag.c:350-354 | a run of '/' is written only when something was written since the last one, and afterwards nothing has been |
| Tag.MissingTagWritesNothing | src/rsvc/tag.c:379-406 | a code with no non-empty value writes nothing; before any content it marks the path as having none |
| Tag.CodeWritesValues | src/rsvc/tag.c:379-406 | a code with values writes at least the separator, the ", " between them and the first value, and becomes the last code |
| Tag.ExpandNext | src/rsvc/tag.c:346-408 | expanding one more token appends what that token writes in the context the earlier ones left |
| Tag.NoArtistExample | src/rsvc/tag.c:346-408 | "%b/%A/%k" over an album "X", track 1 and no artist of any kind gives "X/01": the empty artist directory is dropped and the track number padded to two digits |
| Tag.AlbumTrackHasNoArtist | src/rsvc/tag.c:375-377 | album and track number alone, without any artist, fit that example |
| Tag.PaddingExample | src/rsvc/tag.c:390-394 | with TRACKTOTAL four characters long, track "21" is written "0021" but "021" is kept as it is |
| Tag.EpisodePaddedByTrackTotal | src/rsvc/tag.c:371-372 | an episode number is padded to the width of TRACKTOTAL |
| Tag.EpisodeTotalIgnored | src/rsvc/tag.c:371-372 | a 100-episode EPISODETOTAL does not widen episode 3 beyond "03" |
| Tag.SeparatorExample | src/rsvc/tag.c:361-368 | "%d%k%t" over disc 1, track 2 and title "T" gives "1-02 T": a hyphen from disc to track, a space after that |
| Tag.UnknownCodeMessage | src/rsvc/tag.c:276 | the message names the whole format and the code: "%z: invalid format code %z" |
| Tag.TrailingPercentMessage | src/rsvc/tag.c:278-281 | a '%' at the end of the format is reported with the NUL byte written in octal, "a%: invalid format code %\0" |
| Tag.UnknownCodeFirst | src/rsvc/tag.c:274-277 | a '%' before a printable character that is no format code is reported as an invalid format code |
| Options.Deliver | src/rsvc/options.c:44-99 | a callback that accepts an event extends the trace by exactly that event; one that refuses ends the parse with its own message |
| Options.LongValue | src/rsvc/options.c:57-67 | the first request for the value of "--name" takes the next element, failing with "argument required" when there is none; a repeated request returns the same element |
| Options.LongValueRepeats | src/rsvc/options.c:58-66 | asking twice for the value of "--name" returns the same element and consumes no more |
| Options.ShortValue | src/rsvc/options.c:77-90 | a short option's value is the rest of its cluster when there is any, else the next element, else "option -c: argument required"; a repeated request returns the same text |
| Options.ShortValueRepeats | src/rsvc/options.c:78-89 | asking twice for a short option's value returns the same text and consumes no more |
| Options.LongStep | src/rsvc/options.c:37-72 | a long option consumes its element and at most the next one, and adds one event |
| Options.ClusterFrom | src/rsvc/options.c:73-94 | a cluster consumes its element and at most the next one, and only adds events |
| Options.Step | src/rsvc/options.c:31-101 | each element other than "--" consumes itself and at most the next one, and only adds events |
| Options.Tokenize | src/rsvc/options.c:28-110 | the scan delivers exactly the events of the option grammar, in order, or fails with the first refusal |
| Options.Element | src/rsvc/options.c:32-100 | one pass of the first loop handles one element as the grammar says |
| Options.Cluster | src/rsvc/options.c:76-94 | the inner loop over a cluster's characters handles them as the grammar says |
| Options.Arguments | src/rsvc/options.c:104-108 | plain arguments are delivered one by one, in order |
| Options.DashDashEndsOptions | src/rsvc/options.c:33-108 | after "--" every later element is an argument, in order, even one that starts with '-' |
| Options.LongWithValue | src/rsvc/options.c:40-53 | "--name=value" offers the value to the callback; a callback that does not take it fails with "no argument permitted" |
| Options.LongWithNext | src/rsvc/options.c:54-70 | "--name" whose callback wants a value takes the next element, or fails with "argument required" when there is none |
| Options.Flags | src/rsvc/options.c:76-94 | the characters of a cluster that take no value are reported one by one |
| Options.ClusterFlags | src/rsvc/options.c:76-94 | characters that take no value are reported in order and the scan moves past them |
| Options.ClusterWithValue | src/rsvc/options.c:76-94 | in "-abcvalue" the characters before the first that wants a value are flags; that one takes the rest of the cluster, or the next element when the cluster ends with it, and ends the cluster |
| Options.ClusterOfFlags | src/rsvc/options.c:76-94 | a cluster in which no character wants a value reports all of them as flags |
| Options.PlainArgument | src/rsvc/options.c:73-100 | a lone "-" and any element not starting with '-' is an argument |
| Options.RefusalStops | src/rsvc/options.c:97-99 | a callback that refuses ends the whole parse with its message |
| Options.ProgramNameIgnored | src/rsvc/options.c:30 | the scan starts at index 1: the program name never matters |
| Options.Lookup | src/rsvc/options.c:116-120 | a long name maps to the code of a table entry with that name, and to nothing when no entry has it |
| Options.LongOption | src/rsvc/options.c:112-123 | the first entry with the name gives the short code; a name missing from the table is "illegal option --name" |
| Options.Int32 | src/rsvc/options.c:153 | storing a `long` into an `int` keeps it modulo 2^32, in the 32-bit range, and changes nothing already in range |
| Options.IntegerRead | src/rsvc/options.c:147-160 | a stored integer is always a 32-bit value from a value that was obtained |
| Options.IntegerOption | src/rsvc/options.c:147-160 | a failing `get_value` is passed on; otherwise the value is accepted exactly when `strtol` reads all of it, and then the 32-bit conversion is stored; "an integer is required" otherwise, leaving the old integer |
| Options.EmptyIntegerAccepted | src/rsvc/options.c:153-158 | as written an empty value is accepted and stores 0 |
| Options.RequireInteger | src/rsvc/options.c:147-160 | as intended: the empty value is refused as well; every well-formed decimal integer is accepted |
| Options.IntegerTextRead | src/rsvc/options.c:153-154 | `strtol` reads an optionally signed run of digits to its end |
| Options.RequiredRead | src/rsvc/options.c:147-160 | as intended: an integer is stored only from a value that was obtained and is not empty, and always as a 32-bit value |
| CloakOptions.Upper | src/bin/cloak_options.c:267-269 | `toupper` turns a name letter into a tag-name character and keeps the letter, ignoring case |
| CloakOptions.UpperAll | src/bin/cloak_options.c:267-269 | every character of the name is upper-cased in place |
| CloakOptions.ValidateName | src/bin/cloak_options.c:261-271 | a name of letters and '_' is accepted and upper-cased in place; any other name is left as it was and refused with "invalid tag name: " and the name |
| CloakOptions.ValidatedNameIsTagName | src/bin/cloak_options.c:261-271 | a validated name is a valid tag name naming the same tag, and validating it again changes nothing |
| CloakOptions.SplitAssignment | src/bin/cloak_options.c:273-283 | an assignment splits at its first '=' into a name without '=' and a value that join back into it; without '=' it fails with "missing tag value: " and the text |
| CloakOptions.SplitJoined | src/bin/cloak_options.c:273-283 | splitting "name=value" for a name without '=' gives back the name and the value, even when the value holds '=' |
| CloakOptions.StartsWithMeaning | src/bin/cloak_options.c:365-370 | `starts_with` holds exactly when the text is the prefix followed by something |
| CloakOptions.EndsWithMeaning | src/bin/cloak_options.c:372-377 | `ends_with` holds exactly when the text is something followed by the suffix |
| CloakOptions.TypePath | src/bin/cloak_options.c:397-434 | a path rule's type is found only for names ending in "-path" |
| CloakOptions.TypePathNames | src/bin/cloak_options.c:400-429 | exactly "audio-path", "video-path", "tv-path" and "movie-path" are type paths, for the audio group, the video group, media kind "TV Show" and media kind "Movie" |
| CloakOptions.ModeOf | src/bin/cloak_options.c:153-170 | write access exactly when some option modifies tags or images (or auto mode); read access when nothing modifies but something lists, writes images out or moves; no action otherwise |
| CloakOptions.RemoveTag | src/bin/cloak_options.c:294-302 | --remove succeeds exactly when a value is given and it is a name of letters and '_' |
| CloakOptions.AssignTag | src/bin/cloak_options.c:304-319 | --add and --set succeed exactly when the value is an assignment whose name is letters and '_' |
| CloakOptions.ShorthandTag | src/bin/cloak_options.c:436-452 | a shorthand succeeds exactly for a tag code with a value; any other character is "illegal option -c" |
| CloakOptions.ImageEffect | src/bin/cloak_options.c:322-363 | --image and --add-image succeed exactly when the path is given and opens as a file whose format reads images; --write-image needs only its path; the default-path form and --remove-image always succeed |
| CloakOptions.SelectIndex | src/bin/cloak_options.c:116 | --select-image succeeds exactly when its value is a non-empty integer that `strtol` reads to its end |
| CloakOptions.PushRule | src/bin/cloak_options.c:379-389 | a path rule is added exactly when its value is given and is a valid path format |
| CloakOptions.SetIsRemoveThenAdd | src/bin/cloak_options.c:312-316 | --set is --add that also queues the removal of the tag's old values |
| CloakOptions.CodeNameIsUpper | src/bin/cloak_options.c:438-447 | the tag names of the shorthand codes are already valid, upper-case and free of '=' |
| CloakOptions.ShorthandIsSet | src/bin/cloak_options.c:436-452 | a shorthand such as `-a VALUE` is `--set ARTIST=VALUE` |
| CloakOptions.MediaKindIsSet | src/bin/cloak_options.c:111-112 | --movie and --tv are `--set MEDIAKIND=Movie` and `--set MEDIAKIND=TV Show` |
| CloakOptions.OnlyInformationExits | src/bin/cloak_options.c:98-125 | help, formats and version end the program and change nothing; every other handler goes on |
| CloakOptions.ChangesNeedWriting | src/bin/cloak_options.c:153-161 | an accepted option that changes tags or images makes the mode ask for write access |
| CloakOptions.ReadingNeedsReadAccess | src/bin/cloak_options.c:162-166 | listing, writing images out and moving ask only for read access, unless something else modifies |
| CloakOptions.SwitchHandled | src/bin/cloak_options.c:98-125 | a flag that takes no value always succeeds, with its switch's effect |
| CloakOptions.Ops.constructor | src/bin/cloak_options.c:94-151 | the options start empty and with no action |
| CloakOptions.Ops.LiteralTagOption | src/bin/cloak_options.c:285-290 | the tag is queued for removal and for adding with the value |
| CloakOptions.Ops.RemoveOption | src/bin/cloak_options.c:294-302 | the options change exactly as --remove says, and not at all on failure |
| CloakOptions.Ops.PushAssignment | src/bin/cloak_options.c:312-316 | the name goes on the removal list for --set only, and the name and value on the add lists |
| CloakOptions.Ops.AssignOption | src/bin/cloak_options.c:304-319 | the options change exactly as --add or --set says, and not at all on failure |
| CloakOptions.Ops.AddImageOption | src/bin/cloak_options.c:324-343 | the image is queued exactly as its effect says; --image also removes every existing image |
| CloakOptions.Ops.IndexedImageOption | src/bin/cloak_options.c:344-360 | writing or removing an image queues the current image index |
| CloakOptions.Ops.ImageOption | src/bin/cloak_options.c:322-363 | each image flag changes the options as its effect says |
| CloakOptions.Ops.SelectImageOption | src/bin/cloak_options.c:116 | the image index changes exactly as the corrected integer reader says |
| CloakOptions.Ops.PushPath | src/bin/cloak_options.c:379-395 | a valid path format is added as a rule of its priority; otherwise nothing changes |
| CloakOptions.Ops.TypePathOption | src/bin/cloak_options.c:397-434 | "--TYPE-path" adds a rule of that type; any other name is not matched and changes nothing |
| CloakOptions.Ops.ShorthandOption | src/bin/cloak_options.c:436-452 | the options change exactly as the shorthand says |
| CloakOptions.Ops.SwitchOption | src/bin/cloak_options.c:102-121 | each flag without a value counts, sets its field or sets MEDIAKIND |
| CloakOptions.Ops.TagOption | src/bin/cloak_options.c:107-123 | the flags that edit tag lists change the options as their effect says |
| CloakOptions.Ops.ValueOption | src/bin/cloak_options.c:107-123 | the flags that take a value change the options as their effect says |
| CloakOptions.Ops.PickOption | src/bin/cloak_options.c:107-123 | the image-selection, path-rule and image flags change the options as their effect says, and an error leaves them unchanged |
| CloakOptions.Ops.ShortOption | src/bin/cloak_options.c:98-125 | the handler switch changes the options and continues or exits as the flag's handler says |
| CloakOptions.Ops.LongOption | src/bin/cloak_options.c:127-134 | a type path is tried first, then the long-name table |
| CloakOptions.Ops.Argument | src/bin/cloak_options.c:136-140 | every argument is appended to the input files |
| CloakOptions.Ops.Finish | src/bin/cloak_options.c:142-150 | no input files fails with "no input files", then no action with "no actions"; on success with listing, the listing is long exactly when there are several files |
| CloakMove.MediaKinds | src/bin/cloak_move.c:52-56 | the MEDIAKIND values are at most one per tag |
| CloakMove.MediaKindMatches | src/bin/cloak_move.c:52-58 | a media-kind rule applies iff the file has exactly one MEDIAKIND tag and its value is the rule's kind: a second MEDIAKIND tag resets the match |
| CloakMove.ChooseFromPicks | src/bin/cloak_move.c:42-68 | the walk over the rules keeps the current path when no later applicable rule outranks it, and otherwise ends on the earliest applicable rule of the highest rank |
| CloakMove.PathForChoice | src/bin/cloak_move.c:42-68 | the chosen format is that of the first applicable rule of the highest applicable rank |
| CloakMove.PathForDefault | src/bin/cloak_move.c:42-68 | with no applicable rule the format is the default "./%b/%A/%d%k%t" |
| CloakMove.PathFormatFor | src/bin/cloak_move.c:42-68 | the walk over the rule list returns the format the choice above defines |
| CloakMove.RunLength | src/bin/cloak_move.c:79-82 | the run holds no ' ', '.' or '/', and stops at one or at the end |
| CloakMove.SegmentLength | src/bin/cloak_move.c:79-82 | every segment of a non-empty rest is non-empty and fits in it |
| CloakMove.SegmentsRebuild | src/bin/cloak_move.c:76-93 | the segments put back together give the path |
| CloakMove.SegmentsWellFormed | src/bin/cloak_move.c:76-93 | each segment is a single ' ', '.' or '/' or a run of other characters, and no two runs are adjacent |
| CloakMove.SegmentsUnique | src/bin/cloak_move.c:76-93 | well-formed segments are exactly the segmentation of their concatenation, so the segmentation is unique |
| CloakMove.SegmentSpan | src/bin/cloak_move.c:79-82 | the step of the segmenting loop is the length of the segment the rest starts with |
| CloakMove.CountSegments | src/bin/cloak_move.c:76-93 | the counting pass counts exactly the segments of the path |
| CloakMove.FillSegments | src/bin/cloak_move.c:76-93 | the filling pass stores exactly the segments of the path, in order |
| CloakMove.Segment | src/bin/cloak_move.c:95-99 | the counting and the filling pass agree: the fresh array holds the segments of the path |
| CloakMove.FirstMatch | src/bin/cloak_move.c:101-114 | the first index below the bound holding the segment, or none there |
| CloakMove.FindIn | src/bin/cloak_move.c:101-114 | a non-delimiter source segment is found at the first destination index no later than its own that holds it; none when it is a delimiter or absent there |
| CloakMove.FindAsWrittenReadsPastEnd | src/bin/cloak_move.c:101-114 | the loop as written reads `bseg[nbseg]`, one past the array, exactly when the source index is at or past the destination's end and no earlier match exists; otherwise it agrees with `FindIn` |
| CloakMove.PastEndExample | src/bin/cloak_move.c:101-114 | renaming "a b" to "c", the search for " " at index 1 reaches past the one-segment destination |
| CloakMove.PastEndExampleSegments | src/bin/cloak_move.c:76-93 | "a b" has the segments "a", " ", "b" and "c" the one segment "c" |
| CloakMove.FindCommon | src/bin/cloak_move.c:101-114 | the search kept inside the destination finds what `FindIn` defines |
| CloakMove.Backtrack | src/bin/cloak_move.c:116-129 | both indices go back by the same amount, over equal single-character segments only, and stop where the preceding segments are not an equal single character |
| CloakMove.BacktrackSingleSegments | src/bin/cloak_move.c:116-129 | the loop ends on the pair `Backtrack` defines |
| CloakMove.NextFromLinesUp | src/bin/cloak_move.c:131-152 | the search ends on a pair of equal segments, or at the ends of both paths |
| CloakMove.BacktrackLinesUp | src/bin/cloak_move.c:116-129 | backtracking from equal segments ends on equal segments |
| CloakMove.NextCommonProgress | src/bin/cloak_move.c:131-152 | when the first segments differ, the next common pair is past the start of at least one path, so each stretch of differences consumes a segment |
| CloakMove.FindNextCommonSegment | src/bin/cloak_move.c:131-152 | returns the next common pair the search defines, (nsrc, ndst) when there is none |
| CloakMove.PiecesSpellPaths | src/bin/cloak_move.c:166-204 | the source side of the rename line spells a prefix of the source path and the destination side a prefix of the destination, and one of them spells its whole path: the line stops when either side runs out |
| CloakMove.PiecesOfSame | src/bin/cloak_move.c:166-204 | renaming a path to itself shows every segment once and no braces |
| CloakMove.RenameToSelf | src/bin/cloak_move.c:166-204 | renaming a path to itself prints "rename: ", the path and a newline |
| CloakMove.PrintSegments | src/bin/cloak_move.c:154-164 | printing and advancing `count` times appends the text of the next `count` segments |
| CloakMove.PrintStretch | src/bin/cloak_move.c:183-198 | a differing stretch is printed as "{old => new}" and both sides advance to the next common pair, at least one of them by a segment |
| CloakMove.PiecesSameStep | src/bin/cloak_move.c:176-182 | an equal segment is printed once, and the rest of the line follows from the next segments |
| CloakMove.PiecesChangedStep | src/bin/cloak_move.c:183-198 | a differing stretch is printed in braces, and the rest of the line follows from the next common pair |
| CloakMove.PrintPieces | src/bin/cloak_move.c:175-199 | the loop prints the pieces of the line in order |
| CloakMove.PrintRename | src/bin/cloak_move.c:166-204 | the output is the rename line: "rename: ", the pieces, a newline |
| Cloak.PlainLength | src/bin/cloak.c:81-83 | the copied run stops at the first backslash, CR or LF, or at the end |
| Cloak.PlainLengthPlain | src/bin/cloak.c:81-83 | the copied run holds no backslash, CR or LF |
| Cloak.BackslashLength | src/bin/cloak.c:84 | the measured run stops at the first character that is not a backslash |
| Cloak.BackslashRun | src/bin/cloak.c:84 | the measured run is made of backslashes only |
| Cloak.BreakLength | src/bin/cloak.c:90-96 | a line break is consumed exactly when the rest starts with CR or LF |
| Cloak.TurnAdvances | src/bin/cloak.c:80-96 | each turn of the escaping loop moves the cursor forward, so the loop ends |
| Cloak.EscapedIsRef | src/bin/cloak.c:80-96 | the cursor loop escapes as the character-by-character definition does: plain characters copied, every line break a continuation, a backslash run written once or twice by the doubling rule |
| Cloak.EscapePlain | src/bin/cloak.c:81-83 | a value with no backslash and no line break prints unchanged |
| Cloak.EscapeBreaks | src/bin/cloak.c:90-96 | CR LF, a lone CR and a lone LF each print as a backslash and a newline |
| Cloak.EscapeBackslashRun | src/bin/cloak.c:84-89 | as written, a backslash run is doubled when text other than a line break follows it, and written once before a line break or at the end of the value |
| Cloak.EscapedOneLine | src/bin/cloak.c:76-100 | whatever the value and the doubling rule, the escaped text holds no CR and every LF in it follows a backslash: each tag takes one logical line |
| Cloak.ReadValue | src/bin/cloak.c:76-100 | reading an escaped value back consumes input, so the reader of a listing terminates |
| Cloak.RoundTrip | src/bin/cloak.c:76-100 | with runs doubled before a line break or the end, every value is read back from its escaped text and the newline after it, up to the kind of its line breaks |
| Cloak.NameLength | src/bin/cloak.c:78 | the name of a listed line ends at its first '=' |
| Cloak.NormalizedPairs | src/bin/cloak.c:76-100 | the tags with each value's line breaks made LF, names and order kept |
| Cloak.ListingRoundTrip | src/bin/cloak.c:76-100 | with runs doubled before a line break or the end, a listing of valid names reads back as the tags it was written from, up to the kind of their line breaks |
| Cloak.EscapedTrailingRun | src/bin/cloak.c:84-89 | a run that ends a value is written once as the code stands and twice by the corrected rule |
| Cloak.AmbiguousBeforeText | src/bin/cloak.c:76-100 | as written, the tags NAME = j+1 backslashes and OTHER = "" print the same listing as the one tag NAME = j backslashes, LF, "OTHER=" |
| Cloak.AmbiguousBeforeBreak | src/bin/cloak.c:76-100 | with the corrected rule the two listings differ in length |
| Cloak.ListingAsWrittenAmbiguous | src/bin/cloak.c:76-100 | two different tag lists print the same listing as written, and different listings with runs doubled before a line break or the end |
| Cloak.EscapeValue | src/bin/cloak.c:79-97 | the cursor loop writes the escaped value of the corrected rule or of the rule as written, whichever it is given |
| Cloak.PrintTags | src/bin/cloak.c:76-100 | one line NAME=escaped value per tag, in the order of the tags, runs doubled before a line break or the end |
| CloakApply.PlanOrdered | src/bin/cloak.c:198-247 | `apply_ops` never returns to an earlier phase: tag removal, image removal, tag additions, image writes, image additions, then the closing chain |
| CloakApply.EditsBeforeFinish | src/bin/cloak.c:198-241 | no phase before the closing chain looks up, saves or moves |
| CloakApply.FinishSteps | src/bin/cloak.c:243-247 | the closing chain looks up iff in auto mode, saves iff not a dry run, and moves iff in move mode |
| CloakApply.PlanFinish | src/bin/cloak.c:198-247 | the same holds of the whole plan, and the closing chain ends it |
| CloakApply.PlanTagRemoval | src/bin/cloak.c:200-210 | removing every tag is one clear and no named removal; otherwise the plan starts with each named tag's removal, in the order given |
| CloakApply.PlanAdds | src/bin/cloak.c:224-229 | the k-th addition pairs the k-th name with the k-th value, they stop at the shorter list, and no other step adds a tag |
| CloakApply.PlanNeedsMode | src/bin/cloak.c:55-75 | whenever the plan edits tags or images or looks up MusicBrainz, the tags are opened for writing |
| CloakApply.AppliedThen | src/bin/cloak.c:198-247 | running two lists of calls: when the first fails the second never starts and that failure is the outcome; otherwise the second runs on the tags the first left |
| CloakApply.ReadOnlyUnchanged | src/bin/cloak.c:198-247 | read-only tags come out unchanged whatever the calls, the lookup included, and whatever the format |
| CloakApply.AppliedKeepsNames | src/bin/cloak.c:198-247 | every tag left after the edits and the lookup of in-memory tags has a valid name |
| CloakApply.OpusRefusesTagEdits | src/rsvc/opus.c:43-57 | on Opus tags the calls, the lookup included, leave the pairs unchanged, and a run succeeds only if it holds no clear, removal or addition |
| CloakApply.OpusClearFails | src/bin/cloak.c:198-209 | removing all tags of an Opus file fails at once, with "opus tags are read-only" on writable tags and the read-only refusal otherwise, and changes nothing |
| CloakApply.OpusAddFails | src/bin/cloak.c:224-229 | asking to add a tag to an Opus file makes the run fail with its tags unchanged |
| CloakApply.SetMbTags | src/rsvc/musicbrainz.c:40-57 | the `set_mb_tag` chain: each field found is skipped when a tag has exactly its name and otherwise added through `rsvc_tags_add`, stopping at the first refusal with the additions before it kept |
| CloakApply.FindTag | src/rsvc/musicbrainz.c:46-52 | the scan finds a tag exactly when some tag has that name, compared exactly |
| CloakApply.MbTaggedRefused | src/rsvc/musicbrainz.c:40-57 | tags that refuse every addition (read-only tags, Opus tags) come out of the lookup unchanged |
| CloakApply.MbTaggedKeepsNames | src/rsvc/musicbrainz.c:40-57 | the lookup on in-memory tags leaves only valid names |
| CloakApply.MbTaggedAdds | src/rsvc/musicbrainz.c:40-57 | on writable in-memory tags the lookup succeeds, keeps the tags before it, leaves every field found present, and adds only fields found whose name no tag had |
| CloakApply.MbTaggedAppends | src/rsvc/musicbrainz.c:40-57 | fields with valid names, distinct from each other and from every tag's, are all appended in the order found |
| CloakApply.MbFieldNames | src/rsvc/musicbrainz.c:199-202 | TITLE, ARTIST, ALBUM and DATE are valid tag names, so the name check never refuses the lookup's additions |
| CloakApply.PerformOn | src/bin/cloak.c:198-247 | one call on the tags object: clear, removal, addition and save go through the generic calls with the format's methods, after the writability and name checks; the MusicBrainz lookup fails with its query's error or adds the fields found as `set_mb_tag` does; image edits and moves leave the tags unchanged and report as given |
| CloakApply.RunSteps | src/bin/cloak.c:198-247 | a loop over a list of calls stops at the first failure, with the tags that failure left |
| CloakApply.RunPhase | src/bin/cloak.c:198-241 | a phase that fails ends `apply_ops` with that outcome; one that succeeds leaves the rest of the plan to run |
| CloakApply.Edit | src/bin/cloak.c:198-247 | the phases run in plan order, the first failure returns, and the tags end as the plan run until that failure leaves them, the lookup's additions included |
| CloakApply.ApplyOps | src/bin/cloak.c:198-260 | as `Edit`, through the tags' own format methods, and the listing (path in long mode, tags after every edit and the lookup, images) is written only when every call succeeded |
| CloakApply.List | src/bin/cloak.c:249-257 | the listing writes "path:" in long mode, then the tags if asked, then the images if asked |
| CloakApply.CoverBesideAudio | src/bin/cloak.c:141-148 | without a given path, the image is stored in the audio file's directory |
| CloakApply.GivenImagePath | src/bin/cloak.c:141-153 | a given path is kept when it has an extension, and otherwise gets "." and the format's extension |
| CloakApply.WriteImageAt | src/bin/cloak.c:129-172 | the image at the index is stored under the chosen path and the store's result is the result; with no image at that index, negative ones included, the error is "bad image index: " and the index |
| CloakApply.BadIndexNames | src/bin/cloak.c:167-168 | the message spells the index in decimal, with a '-' for a negative one |
| CloakApply.TagFile | src/bin/cloak.c:55-75 | an error opening the file is the result as it is; the tags are opened writable exactly as the mode asks, with the methods of the format found; every later error (format detection, "can't tag", `open_tags`, `apply_ops`) carries the path in front |
| CloakApply.FileErrorsNamed | src/bin/cloak.c:55-66 | only the error of opening the file lacks the path; every other error starts with the path and ": " |
| CloakApply.Results | src/bin/cloak.c:118-127 | one result per file |
| CloakApply.ResultsAt | src/bin/cloak.c:118-127 | the i-th result is that of `tag_file` on the i-th file |
| CloakApply.JoinedOk | src/bin/cloak.c:118-127 | the run succeeds iff every file does |
| CloakApply.JoinedFirstFailure | src/bin/cloak.c:118-127 | the first failing file's error ends the run, after the output of the files before it and no output of the files after it |
| CloakApply.JoinedOutputs | src/bin/cloak.c:118-127 | with listing on, the outputs of successive files are separated by a blank line |
| CloakApply.JoinedAdvance | src/bin/cloak.c:118-127 | one turn of the loop: a failure ends the run with what was written so far; otherwise the loop goes on with the file's output appended |
| CloakApply.TagNext | src/bin/cloak.c:119-124 | the i-th file's result, and the output with its listing and a blank line when listing and another file follows |
| CloakApply.TagFiles | src/bin/cloak.c:118-127 | the loop over the files ends as the joined run of their results |
| SiNumbers.Wrap64 | src/bin/rsvc.c:446-452 | the 64-bit two's-complement result: in range, congruent to the value modulo 2^64, and the value itself when it fits |
| SiNumbers.QuotientBound | src/bin/rsvc.c:446-452 | for a positive factor, `value <= m / factor` iff `value * factor <= m`: the division test is exact for nonnegative values |
| SiNumbers.MultipliedAsWritten | src/bin/rsvc.c:446-452 | as written, a nonnegative value is scaled iff the product fits INT64_MAX; a negative value is always accepted |
| SiNumbers.Multiplied | src/bin/rsvc.c:446-452 | checking both bounds, the value is scaled iff the product fits in 64 bits, and the result is the product |
| SiNumbers.MultiplyAsWrittenWraps | src/bin/rsvc.c:446-452 | -10 times 10^18 is accepted as written and wraps to 8446744073709551616; checking both bounds refuses it |
| SiNumbers.SiFactor | src/bin/rsvc.c:459-476 | every suffix scale is positive |
| SiNumbers.SiFactorScales | src/bin/rsvc.c:459-476 | k, m, g, t, p, e in either case scale by 1000^1 … 1000^6, and with an `i` after them by 1024^1 … 1024^6 |
| SiNumbers.SiFactorOthers | src/bin/rsvc.c:459-478 | no other letter scales |
| SiNumbers.SiNumber | src/bin/rsvc.c:454-479 | the value stored is always a 64-bit number |
| SiNumbers.StrTolStopsAtTail | src/bin/rsvc.c:456 | `strtol` reads a spelled-out 64-bit number back and stops where a non-digit follows |
| SiNumbers.SiNumberPlain | src/bin/rsvc.c:456-458 | a plain number reads as itself |
| SiNumbers.SiNumberScales | src/bin/rsvc.c:454-479 | a number with a suffix letter (and an `i` when binary) scales by the suffix's factor when the product fits in 64 bits, and otherwise fails leaving the number read |
| SiNumbers.SiNumberScalesAsWritten | src/bin/rsvc.c:454-479 | for a nonnegative number the code as written does the same: it fails exactly when the product overflows |
| SiNumbers.SiNumberOtherTails | src/bin/rsvc.c:457-478 | any other tail fails: more than two characters, two whose second is not `i`, or a letter that is no suffix |
| SiNumbers.NegativeWrapsAsWritten | src/bin/rsvc.c:454-479 | as written "-10e" reads successfully as 8446744073709551616; checking both bounds it fails and leaves -10 |
| SiNumbers.NegativeWrapsText | src/bin/rsvc.c:454-479 | the example's text is "-10e" |
| SiNumbers.MultiplySafe | src/bin/rsvc.c:446-452 | succeeds iff the product fits in 64 bits, and writes the product back only on success |
| SiNumbers.ReadSiNumber | src/bin/rsvc.c:454-479 | returns the flag and the value `SiNumber` defines, with both bounds checked |
| Rsvc.BitrateSet | src/bin/rsvc.c:394-406 | a missing value is that error and changes nothing; otherwise the number read is stored, and the option is accepted iff the value is an SI number and positive, else "invalid bitrate: " and the value |
| Rsvc.BitrateOption | src/bin/rsvc.c:394-406 | returns and stores what `BitrateSet` defines |
| Rsvc.DefaultBitrateText | src/bin/rsvc.c:436-441 | "-b 192k" gives the bitrate validation fills in by default |
| Rsvc.BitrateRefusals | src/bin/rsvc.c:394-406 | zero and negative bitrates are refused with their text in the message |
| Rsvc.FormatSet | src/bin/rsvc.c:408-420 | the format is replaced by the lookup even when it finds nothing, and the option is accepted iff it found one, else "invalid format: " and the value |
| Rsvc.FormatOption | src/bin/rsvc.c:408-420 | returns and stores what `FormatSet` defines |
| Rsvc.Validated | src/bin/rsvc.c:422-444 | after validation a format is always chosen |
| Rsvc.ValidateEncodeOptions | src/bin/rsvc.c:422-444 | returns and stores what `Validated` defines |
| Rsvc.ValidatedDefault | src/bin/rsvc.c:423-429 | without a format, vorbis is chosen when a bitrate is set and flac otherwise |
| Rsvc.ValidatedOutcome | src/bin/rsvc.c:431-441 | with a format, validation fails iff it is lossless and a bitrate is set, naming the format; the format is kept, and a lossy one without a bitrate gets 192000 |
| Rsvc.ValidatedAgrees | src/bin/rsvc.c:422-444 | after success a lossless format has no bitrate and a lossy one has one, and validating again changes nothing |
| Rsvc.CommandNamed | src/bin/rsvc.c:279-292 | a word selects a command iff it is one of print, ls, watch, eject, rip, convert, and the command selected bears that name |
| Rsvc.Argued | src/bin/rsvc.c:278-302 | a positional argument is accepted or refused with a reported message, never refused silently |
| Rsvc.DeviceArgumentAsWritten | src/bin/rsvc.c:71-77 | as written, print's and eject's handler refuses a second device without reporting anything and keeps the first |
| Rsvc.RipPathAsWritten | src/bin/rsvc.c:133 | as written, rip's -p never changes the output path format |
| Rsvc.Shorted | src/bin/rsvc.c:240-260 | a short option is accepted, refused with a reported message, or exits; never refused silently |
| Rsvc.Longed | src/bin/rsvc.c:262-276 | a long option is accepted, refused with a reported message, or exits; never refused silently |
| Rsvc.GlobalLongAliases | src/bin/rsvc.c:263-270 | --help, --jobs, --verbose and --version act exactly as -h, -j, -v and -V |
| Rsvc.RipLongAliases | src/bin/rsvc.c:138-145 | under rip, --bitrate, --eject, --format and --path act exactly as -b, -e, -f and -p |
| Rsvc.OtherLongIllegal | src/bin/rsvc.c:271-275 | without a command that has long options, any other long name is refused as illegal and changes nothing |
| Rsvc.RipOption | src/bin/rsvc.c:129-137 | rip's short handler answers and updates rip's options as the rip table defines |
| Rsvc.ConvertOption | src/bin/rsvc.c:184-192 | convert's short handler answers and updates convert's options as the convert table defines |
| Rsvc.Invocation.constructor | src/bin/rsvc.c:66-126 | before any callback: no command, four jobs, rip's path format "%k" |
| Rsvc.Invocation.Argument | src/bin/rsvc.c:278-302 | the callback answers and changes the shared state as `Argued` defines |
| Rsvc.Invocation.ShortOption | src/bin/rsvc.c:240-260 | the callback answers and changes the shared state as `Shorted` defines |
| Rsvc.Invocation.LongOption | src/bin/rsvc.c:262-276 | the callback answers and changes the shared state as `Longed` defines |
| Rsvc.Called | src/bin/rsvc.c:240-302 | no callback refuses without reporting a message |
| Rsvc.Ended | src/bin/rsvc.c:305-329 | the program hangs, with `done` never called, exactly when a callback refused without a message |
| Rsvc.DispatchedEnds | src/bin/rsvc.c:305-329 | every command line ends: the callbacks never refuse silently, so the block after the tokenizer always reaches `done` or runs the command |
| Rsvc.FirstPositional | src/bin/rsvc.c:279-296 | the first positional selects its command and changes nothing else; any other word exits with status 1 and "illegal command" |
| Rsvc.DispatchedCons | src/bin/rsvc.c:305-329 | the tokenizer makes one call, then the rest only when that one was accepted |
| Rsvc.RipOneDevice | src/bin/rsvc.c:147-155 | rip's first positional is the device; a second one is "too many arguments" |
| Rsvc.ConvertInputThenOutput | src/bin/rsvc.c:202-212 | convert's positionals are the input, then the output; a third is "too many arguments" |
| Rsvc.NoArgumentHandler | src/bin/rsvc.c:297-301 | ls and watch refuse any positional with "too many arguments" |
| Rsvc.SecondDeviceFails | src/bin/rsvc.c:71-77 | as intended, a second device for print is "too many arguments" and the program exits with status 1 |
| Rsvc.SecondDeviceHangsAsWritten | src/bin/rsvc.c:71-77 | as written, a second device for print makes the tokenizer stop with no report, so `done` is never called and the program does not end |
| Rsvc.RipPathOption | src/bin/rsvc.c:133 | as intended, rip's -p sets the output path format and a device can still follow |
| Rsvc.RipPathSetsDeviceAsWritten | src/bin/rsvc.c:133 | as written, rip's -p stores its value as the device: the path format stays "%k", and a device given after it is "too many arguments" |
| Rsvc.DefaultDiskOf | src/bin/rsvc.c:364-392 | the default disc is found iff exactly one disc appeared, and it is that disc |
| Rsvc.DefaultDisk | src/bin/rsvc.c:364-392 | the callbacks count the discs, keep the first path, and decide as `DefaultDiskOf` defines |
| Ripservice.ReadFormat | src/bin/ripservice.c:574-589 | a name that reads gives a real format, never none |
| Ripservice.ReadFormatRoundTrip | src/bin/ripservice.c:574-589 | every format's name reads back as that format, a name that reads is that format's name, and nothing but "flac", "aac", "alac" and "vorbis" reads |
| Ripservice.CommandNamed | src/bin/ripservice.c:238-248 | a word selects a command iff it is print, ls, watch or rip |
| Ripservice.Argued | src/bin/ripservice.c:216-253 | a refused positional changes nothing; an unknown first word exits with the usage text and "illegal command: " and the word |
| Ripservice.Shorted | src/bin/ripservice.c:158-192 | only rip accepts short options; -V always exits with status 0; a refused option changes nothing |
| Ripservice.LongAliases | src/bin/ripservice.c:194-214 | under rip, --bitrate and --format act as -b and -f; --version exits; any other long name is refused and changes nothing |
| Ripservice.Invocation.constructor | src/bin/ripservice.c:151-156 | before any callback there is no command and every option is unset |
| Ripservice.Invocation.Argument | src/bin/ripservice.c:216-253 | the callback answers and changes the shared state as `Argued` defines |
| Ripservice.Invocation.ShortOption | src/bin/ripservice.c:158-192 | the callback answers and changes the shared state as `Shorted` defines |
| Ripservice.Invocation.LongOption | src/bin/ripservice.c:194-214 | the callback answers and changes the shared state as `Longed` defines |
| Ripservice.Ended | src/bin/ripservice.c:267-299 | a callback that exits ends the program with its status and message; otherwise, the tokenizer's result being ignored, the chosen command runs, and without one the usage text is printed |
| Ripservice.SecondDeviceIgnored | src/bin/ripservice.c:216-253 | a second device for print is dropped without a word: parsing stops and print runs on the first device |
| Ripservice.RipCheckedIff | src/bin/ripservice.c:384-414 | a rip proceeds iff a device and a format are chosen, a lossless format has no bitrate, and a lossy one has a bitrate in [48000, 480000] |
| Ripservice.AacChecksAsVorbis | src/bin/ripservice.c:401-413 | the AAC case falling into the vorbis case repeats a check and decides as vorbis does |
| Ripservice.BitrateTooLow | src/bin/ripservice.c:408-409 | a bitrate under 48000 is refused with "bitrate too low: " and its value |
| Ripservice.FilenameRoundTrip | src/bin/ripservice.c:493-505 | a ripped file's name gives back its track number, in at least two digits, and the format's extension |
| Ripservice.IsrcLines | src/bin/ripservice.c:340-343 | the ISRC line is printed iff the track has an ISRC, at most once |
| Ripservice.CommandPrint | src/bin/ripservice.c:304-350 | without a disk the usage text; a disc that cannot be opened is that error; otherwise the listing, starting with the MCN line when there is one |
| Ripservice.SamePrintWithoutIsrcs | src/bin/ripservice.c:304-350 | on a disc without ISRCs, ripservice's print gives exactly the outcome of `rsvc print` |
| Ripservice.TrackListingAgrees | src/bin/ripservice.c:321-344 | without ISRCs, the tracks print exactly as `rsvc print` prints them |
| Ripservice.SessionListingAgrees | src/bin/ripservice.c:319-345 | without ISRCs, the sessions print exactly as `rsvc print` prints them |
| ConvertCommand.ValidateConvert | src/bin/rsvc_convert.c:283-297 | the encode options are validated first, and what that validation leaves is kept |
| ConvertCommand.ValidateConvertIff | src/bin/rsvc_convert.c:283-297 | the options are valid iff the encode options are, an input is given, and recursive mode has an output; an encode error is the error |
| ConvertCommand.StemEnd | src/bin/rsvc_convert.c:379-385 | the stem ends at a '.' followed by no '/' and no other '.', or at the end of the path |
| ConvertCommand.StemEndWhole | src/bin/rsvc_convert.c:379-385 | when the stem is the whole path, every '.' in it has a '/' after it |
| ConvertCommand.ExtensionChanged | src/bin/rsvc_convert.c:377-400 | the name is made iff the stem, '.', the extension and the terminator fit MAXPATHLEN; otherwise "File name too long" after the path |
| ConvertCommand.ChangedStem | src/bin/rsvc_convert.c:377-400 | the changed name is the old stem, '.', and the new extension, and its own stem is the old stem |
| ConvertCommand.ChangeTwice | src/bin/rsvc_convert.c:377-400 | changing the extension twice is changing it once to the second, or both fail for length |
| ConvertCommand.ChangeIdempotent | src/bin/rsvc_convert.c:377-400 | changing a name to the extension it was just given leaves it as it is |
| ConvertCommand.ChangeExtensionInPlace | src/bin/rsvc_convert.c:377-400 | on a buffer changed in place: a name too long is that error and leaves the buffer as it was; otherwise the buffer holds the changed name, terminated |
| ConvertCommand.CLength | src/bin/rsvc_convert.c:382 | `strlen` is the length of the text before the first NUL |
| ConvertCommand.WriteExtension | src/bin/rsvc_convert.c:396-398 | the stem is kept, then '.', the extension and a NUL are written after it |
| ConvertCommand.Terminated | src/bin/rsvc_convert.c:392-398 | after the rewrite the buffer's text is the stem, '.', and the extension |
| ConvertCommand.BuildPathParts | src/bin/rsvc_convert.c:158-169 | a built path starts with the root, and its last component is the file name after the last '/', preceded by the directory part |
| ConvertCommand.LastSegment | src/bin/rsvc_convert.c:158-169 | the last '/' of a directory, '/', and a name without '/' is the one before the name |
| ConvertCommand.OutputPath | src/bin/rsvc_convert.c:77-87 | a given output is used as it is; otherwise the input with the format's extension |
| ConvertCommand.ExistingIff | src/bin/rsvc_convert.c:104-118 | a file is refused when input and output are the same device and inode; with `--update` an output strictly newer than a different input is skipped; without it nothing is skipped |
| ConvertCommand.InDirectoryIff | src/bin/rsvc_convert.c:225-227 | cleaning a directory removes exactly the paths that are the directory, '/', and a name without '/' |
| ConvertCommand.ChildrenOnly | src/bin/rsvc_convert.c:225-227 | a file directly under the directory is cleaned with it; one in a subdirectory is not |
| ConvertCommand.RemoveFirstAt | src/bin/rsvc_convert.c:246-253 | keeping an output takes out its first occurrence and keeps the rest in order |
| ConvertCommand.RemoveFirstCount | src/bin/rsvc_convert.c:246-253 | keeping an output loses one copy of it and nothing else |
| ConvertCommand.RemoveFirstAbsent | src/bin/rsvc_convert.c:246-253 | keeping an output not in the list leaves the list unchanged |
| ConvertCommand.Children | src/bin/rsvc_convert.c:224-232 | the listed files directly under the directory, all from the list |
| ConvertCommand.CleaningShape | src/bin/rsvc_convert.c:224-234 | cleaning tries the directory's children in list order; when every removal succeeds it has tried them all, otherwise it stopped at the first that failed, with that error |
| ConvertCommand.Outputs.constructor | src/bin/rsvc_convert.c:183 | the list of existing outputs starts empty |
| ConvertCommand.Outputs.Collect | src/bin/rsvc_convert.c:186-200 | each existing output file's path (root, directory, name) is appended at the tail |
| ConvertCommand.Outputs.Keep | src/bin/rsvc_convert.c:246-253 | a converted output's first exact match leaves the list, nothing else changes |
| ConvertCommand.Outputs.Clean | src/bin/rsvc_convert.c:209-234 | the removals tried and the outcome are those `Cleaning` defines |
| ConvertCommand.CleaningNext | src/bin/rsvc_convert.c:224-232 | one more entry is tried, and its removal is the outcome, exactly when it lies directly in the directory |
| ConvertCommand.CleaningStops | src/bin/rsvc_convert.c:228-230 | once a removal has failed, later entries change nothing |
| Cd.OrEmpty | src/rsvc/cd.c:99-104 | a string the drive reports is kept; a failed read leaves the empty string the field starts as |
| Cd.Decoded | src/rsvc/cd.c:158-163 | a track has two or four channels |
| Cd.Encoded | src/rsvc/cd.c:158-163 | the control a track decodes from fits the 4-bit CONTROL field |
| Cd.ControlRoundTrip | src/rsvc/cd.c:158-163 | decoding loses nothing of a 4-bit CONTROL field: pre-emphasis, copy permission, data and four channels are its four bits |
| Cd.ControlDecodes | src/rsvc/cd.c:158-163 | every decoded control comes back from its nibble |
| Cd.Normal | src/rsvc/cd.c:133-144 | the track descriptors, one per counted track, each with point below 100 and ADR 1 |
| Cd.NormalPrefix | src/rsvc/cd.c:137-144 | the tracks counted over a prefix of the descriptors are a prefix of all the tracks |
| Cd.TrackMapFindsTrack | src/rsvc/cd.c:137-144 | when no later descriptor reuses its point, `track_map` sends a track descriptor's point to that descriptor's track |
| Cd.CountTracks | src/rsvc/cd.c:133-144 | the counting loop counts the track descriptors and records `track_map` as defined |
| Cd.TrackFrom | src/rsvc/cd.c:151-171 | a track takes the descriptor's point as number, the LBA of its address as first sector, its ISRC or "", and its CONTROL bits; its end is not set yet |
| Cd.Placed | src/rsvc/cd.c:174-186 | A0 sets the session's first track, A1 its end (one past the last track), A2 its lead-out, from `track_map` and the address; the number stays |
| Cd.Loaded | src/rsvc/cd.c:146-188 | the loading loop keeps the number of sessions and their numbers, and loads one track per track descriptor |
| Cd.LoadedTracks | src/rsvc/cd.c:146-188 | the loaded tracks are the track descriptors in order, each as `TrackFrom` builds it |
| Cd.FreshSessions | src/rsvc/cd.c:123-131 | one session per TOC session, numbered from the first session on |
| Cd.LoadTracks | src/rsvc/cd.c:146-188 | the loading loop yields the tracks and sessions `Loaded` defines |
| Cd.Chained | src/rsvc/cd.c:190-193 | every track but the last ends where the next begins, and nothing else changes |
| Cd.ChainEnds | src/rsvc/cd.c:190-193 | the array after the loop is the chained tracks |
| Cd.LeadOuts | src/rsvc/cd.c:194-196 | the lead-out loop keeps every track's number and first sector |
| Cd.LeadOutsUntouched | src/rsvc/cd.c:194-196 | a track that is the last of no session keeps its end |
| Cd.LeadOutsLatest | src/rsvc/cd.c:194-196 | a session's last track ends at the session's lead-out, unless a later session ends on the same track |
| Cd.SetLeadOuts | src/rsvc/cd.c:194-196 | the array after the loop is the tracks `LeadOuts` defines |
| Cd.Offsets | src/rsvc/cd.c:199-208 | the disc-ID offsets are the end of the session's last track plus 150, then each of its tracks' first sector plus 150, one per track |
| Cd.DiscIdOffsets | src/rsvc/cd.c:199-208 | the offsets loop yields the offsets `Offsets` defines |
| Cd.SessionCount | src/rsvc/cd.c:124 | a TOC has at least one session |
| Cd.Layout | src/rsvc/cd.c:123-188 | the layout has one session per TOC session and one track per track descriptor |
| Cd.Built | src/rsvc/cd.c:123-196 | a built disc has one track per track descriptor and one session per TOC session, and every session's tracks lie within the disc's |
| Cd.Created | src/rsvc/cd.c:74-221 | an open or TOC error is reported with the path; otherwise the disc is built, with the MCN or "", and creation fails with "discid failure" iff some session's offsets are refused |
| Cd.LayoutBegins | src/rsvc/cd.c:146-188 | the loaded tracks carry the number and the first sector of the track descriptors |
| Cd.BeginsKept | src/rsvc/cd.c:190-196 | neither sector-end loop moves a track's number or first sector |
| Cd.BuiltBegins | src/rsvc/cd.c:123-196 | the tracks of a built disc have the numbers and first sectors of the track descriptors |
| Cd.BuiltChain | src/rsvc/cd.c:190-196 | a track that is the last of no session ends where the next track begins |
| Cd.ChainAt | src/rsvc/cd.c:190-196 | a track the lead-out loop leaves alone keeps the end the first loop gave it |
| Cd.BuiltLeadOut | src/rsvc/cd.c:190-196 | a session's last track ends at the session's lead-out, unless a later session ends on the same track |
| Cd.BuiltOffsets | src/rsvc/cd.c:199-208 | a built session's disc-ID offsets are its lead-out plus 150, then the first sectors of its tracks' descriptors plus 150 |
| Cd.OffsetsFrom | src/rsvc/cd.c:199-208 | the offsets of a session whose tracks begin where the descriptors say are those descriptors' sectors plus 150 |
| Cd.NewSessions | src/rsvc/cd.c:123-131 | the session loop yields the fresh numbered sessions |
| Cd.PutDiscIds | src/rsvc/cd.c:198-215 | the disc-ID loop succeeds iff every session's offsets are accepted, stopping at the first refusal |
| Cd.Create | src/rsvc/cd.c:74-221 | the passes yield the outcome `Created` defines |
| Cd.Lay | src/rsvc/cd.c:123-196 | the layout passes yield the tracks and sessions of the built disc |
| Cd.DarwinCreated | src/rsvc/cd_darwin.c:172-206 | here a refused disc ID is reported but does not end the loop: one report per refused session, and the disc is kept iff at least one session's offsets are accepted |
| Cd.Refused | src/rsvc/cd_darwin.c:173-188 | the refused sessions, in order: fewer than all iff some session was accepted |
| Cd.DarwinPutDiscIds | src/rsvc/cd_darwin.c:172-188 | one "discid failure" report per refused session, and success iff some session was accepted |
| Cd.Failures | src/rsvc/cd_darwin.c:184 | n copies of the path's "discid failure" report |
| Cd.FailuresStep | src/rsvc/cd_darwin.c:184 | one more refusal adds one more report |
| Cd.DarwinCreate | src/rsvc/cd_darwin.c:75-207 | the passes yield the reports and disc `DarwinCreated` defines |
| Cd.SessionTrackCount | src/rsvc/cd.c:283-285 | a session's first track plus its track count is its end |
| Cd.SessionTrack | src/rsvc/cd.c:287-289 | the n-th track of a session is the disc's track at the session's first plus n |
| Cd.SectorCount | src/rsvc/cd.c:315-317 | a size_t difference: the sector count when the track's end is not before its beginning |
| Cd.SampleCount | src/rsvc/cd.c:319-321 | 588 stereo 16-bit samples per sector: the samples times 4 bytes are the sectors times 2352 |
| Cd.Each | src/rsvc/cd.c:247-301 | the entries are handed to the block in order up to and including the first that stops the walk, and the walk reports true iff none stopped it |
| Cd.SessionTracks | src/rsvc/cd.c:291-301 | a session's tracks are walked from its first track to its end, the n-th being `SessionTrack` n |
| Cd.ChunkSize | src/rsvc/cd.c:341-348 | one read asks for a sector of 2352 bytes, or what is left when less |
| Cd.Chunks | src/rsvc/cd.c:327-381 | the first read is at the beginning, for a sector or what is left |
| Cd.ChunksTile | src/rsvc/cd.c:327-381 | the reads tile the range: each starts where the previous ended, all but the last are full sectors, and the last ends at the end |
| Cd.RangeReadPrefix | src/rsvc/cd.c:327-381 | the reads done are a prefix of the planned ones, and all of them exactly when nothing failed |
| Cd.RangeReadStops | src/rsvc/cd.c:327-381 | a failed range stops at the chunk right after the last one that went through |
| CdPrint.Duration | src/bin/rsvc_print.c:81-84 | minutes, seconds below 60 and milliseconds below 1000 of a sector count at 75 sectors a second |
| CdPrint.DurationRecovers | src/bin/rsvc_print.c:81-84 | the printed duration loses nothing: the sector count comes back from minutes, seconds and milliseconds |
| CdPrint.FramesRecover | src/bin/rsvc_print.c:84 | the milliseconds printed for 0 to 74 leftover sectors name the sector count uniquely |
| CdPrint.McnLines | src/bin/rsvc_print.c:44-47 | an "MCN:" line is printed iff the disc has a non-empty MCN |
| CdPrint.TrackBlock | src/bin/rsvc_print.c:65-87 | a track's block starts with its number; an audio track has four lines, ending with its duration, a data track three, ending with its sector count |
| CdPrint.SessionBlock | src/bin/rsvc_print.c:55-63 | a session's block starts with its number |
| CdPrint.SessionLines | src/bin/rsvc_print.c:55-63 | the recursion from session n starts with session n's number and prints nothing past the last session |
| CdPrint.CommandPrint | src/bin/rsvc_print.c:33-53 | no disk shows the usage; a creation error is passed on as it is |
| CdPrint.TrackLinesWalk | src/bin/rsvc_print.c:65-89 | the recursion over a session's tracks prints the blocks of the session's tracks from the n-th on, in order |
| CdPrint.SessionLinesWalk | src/bin/rsvc_print.c:55-63 | the recursion over the sessions prints the blocks of the sessions from the n-th on, in order |
| CdPrint.PrintedListing | src/bin/rsvc_print.c:33-53 | a created disc prints the MCN line, if any, then every session with its tracks, in order |
| CdPrint.McnFirst | src/bin/rsvc_print.c:44-47 | the output starts with "MCN: " iff the disc has an MCN |
| InfoCommand.InfoOptions.constructor | src/bin/rsvc_info.c:34-36 | no input paths yet |
| InfoCommand.InfoOptions.Argument | src/bin/rsvc_info.c:136-140 | every positional is accepted and appended to the paths |
| InfoCommand.Widest | src/bin/rsvc_info.c:112-117 | the width is the length of some path and no path is longer; 0 for no paths |
| InfoCommand.Width | src/bin/rsvc_info.c:112-117 | the first loop finds the widest path's length |
| InfoCommand.Padded | src/bin/rsvc_info.c:62-65 | the path and ": ", then spaces up to the width plus two; a path at or past the width gets no spaces |
| InfoCommand.ClockOf | src/bin/rsvc_info.c:66-69 | hours, minutes below 60, seconds below 60 and milliseconds below 1000 that add up to the duration |
| InfoCommand.ClockFields | src/bin/rsvc_info.c:70-74 | the hours are printed, as a third field, exactly when the duration reaches an hour |
| InfoCommand.ChannelsRoundTrip | src/bin/rsvc_info.c:75-81 | "mono", "stereo" and "N-channel" give back the channel count |
| InfoCommand.RateOf | src/bin/rsvc_info.c:84-94 | the rate is kHz plus the printed decimals, at most three, with trailing zeros dropped, and nothing lost |
| InfoCommand.TwoPlaces | src/bin/rsvc_info.c:88-89 | hertz ending in exactly one zero print two decimals that lose nothing |
| InfoCommand.OnePlace | src/bin/rsvc_info.c:90-91 | hertz ending in exactly two zeros print one decimal that loses nothing |
| InfoCommand.InfoLine | src/bin/rsvc_info.c:62-95 | a file's line starts with its padded path and ends in a newline |
| InfoCommand.PrintInfo | src/bin/rsvc_info.c:45-60 | a detection error, or "can't get audio info for NAME file", is reported after the path; the line is printed iff a format is detected, has an audio-info reader and that reader succeeds |
| InfoCommand.Run | src/bin/rsvc_info.c:106-110 | no input paths fail with "no input files" and print nothing |
| InfoCommand.ListedShape | src/bin/rsvc_info.c:119-133 | the listing stops at the first failing file: every earlier file has its line, in order, success means every file listed, and the error is that file's |
| InfoCommand.Aligned | src/bin/rsvc_info.c:106-133 | when every file reads, each line starts with its path padded to the widest, so the columns line up |
| InfoCommand.StepPadded | src/bin/rsvc_info.c:119-131 | a file's line starts with its path padded to the width |
| InfoCommand.RunInfo | src/bin/rsvc_info.c:106-134 | the command prints the lines and ends with the result `Run` defines |
| InfoCommand.ListAll | src/bin/rsvc_info.c:119-133 | the second loop yields the listing `Listed` defines |
| InfoCommand.StepOne | src/bin/rsvc_info.c:120-131 | one turn of the loop: an open error, or `print_info`'s result with the path prefixed to its error |
| InfoCommand.ListedNext | src/bin/rsvc_info.c:119-133 | one more path adds its line, or ends the listing with its error |
| InfoCommand.ListedStops | src/bin/rsvc_info.c:121-130 | once a file has failed, later paths change nothing |
| Ogg.FlatSplit | src/rsvc/opus.c:177-245 | the packets of a run of pages split at any page into those before and those after |
| Ogg.StartStream | src/rsvc/vorbis.c:342-352 | the first page starts the stream iff it is a beginning-of-stream page, whose serial number is kept; otherwise the "does not begin with bos page" error |
| Ogg.ContinueStream | src/rsvc/vorbis.c:354-360 | a later page is accepted iff it is not a beginning-of-stream page and has the stream's serial number; otherwise "multiplexed ogg files not supported" |
| Ogg.StreamChecked | src/rsvc/vorbis.c:373-382 | checking pages one by one accepts a run of pages exactly when it is one logical stream that begins on its first page |
| Ogg.Drained | src/rsvc/vorbis.c:384-405 | draining a page never drops accepted packets and never accepts more than the header holds |
| Ogg.DrainedShape | src/rsvc/vorbis.c:384-405 | a page drains iff its packets fit what is left of the header and each is accepted as the header packet at its position; they are then appended in order |
| Ogg.DrainedNext | src/rsvc/vorbis.c:384-405 | one accepted packet of the inner loop adds itself to the header read so far |
| Ogg.DrainPage | src/rsvc/vorbis.c:384-405 | the packet loop yields the outcome `Drained` defines |
| Ogg.Split | src/rsvc/vorbis.c:246-252 | a comment yields a pair iff it holds an '='; the name is the part before the first '=' and the value the rest |
| Ogg.SplitJoin | src/rsvc/vorbis.c:246-252 | a name without '=' joined to a value by '=' splits back into that name and value |
| Ogg.PairsConcat | src/rsvc/vorbis.c:240-258 | the pairs of two comment lists joined are the pairs of each, joined |
| Ogg.CommentIter.constructor | src/rsvc/vorbis.c:219-230 | the iterator starts at the first comment |
| Ogg.CommentIter.Next | src/rsvc/vorbis.c:240-258 | each call yields the next comment that has an '=', skipping those without; the pairs left before the call are the one yielded followed by those left after it; without one, the iteration ends at the end |
| Vorbis.RemovedAsWritten | src/rsvc/vorbis.c:183-188 | as written, a comment is kept only when it both does not start with the name and has no '=' right after the name's length |
| Vorbis.Removed | src/rsvc/vorbis.c:175-193 | as intended: the comments that are not `name=` fields are kept |
| Vorbis.RemoveAsWrittenOverreaches | src/rsvc/vorbis.c:185 | removing ARTIST as written also removes ARTISTS=b and ALBUMS=x, which the intended test keeps |
| Vorbis.KeptSplit | src/rsvc/vorbis.c:185 | the intended test drops a comment exactly when it splits into the removed name |
| Vorbis.RemovedPairs | src/rsvc/vorbis.c:175-193 | after removing a name, the comments yield the pairs they yielded before, less those with that name |
| Vorbis.AddedPairs | src/rsvc/vorbis.c:195-201 | adding `name=value` yields one more pair, that one, last |
| Vorbis.VorbisTags.constructor | src/rsvc/vorbis.c:429-436 | the tags hold the comments, the serial number, the identification and codebook headers and the pages after the headers |
| Vorbis.VorbisTags.Remove | src/rsvc/vorbis.c:175-193 | with no name every comment goes; with a name the comments become those `Removed` keeps; nothing else changes |
| Vorbis.VorbisTags.Add | src/rsvc/vorbis.c:195-201 | `name=value` is appended to the comments; nothing else changes |
| Vorbis.VorbisTags.Begin | src/rsvc/vorbis.c:219-230 | a new iterator at the first of the tags' comments |
| Vorbis.VorbisCheck | src/rsvc/vorbis.c:395-398 | a packet refused by the header reader is the error "ogg file is not a vorbis file" |
| Vorbis.HeaderFrom | src/rsvc/vorbis.c:370-408 | a successful header read accepts exactly three packets and stops within the file |
| Vorbis.HeaderFromShape | src/rsvc/vorbis.c:370-408 | the packets read are those accepted before and those of the pages read, every page read was checked, and each new packet was accepted at its position |
| Vorbis.HeaderPackets | src/rsvc/vorbis.c:370-408 | a successful header read has read one logical stream whose first pages hold exactly three packets, each accepted as the header it is |
| Vorbis.HeaderNext | src/rsvc/vorbis.c:375-405 | one page more of the page loop |
| Vorbis.ReadHeader | src/rsvc/vorbis.c:370-408 | the loops yield the outcome `HeaderFrom` defines, keeping the first packet as the identification header and the third as the codebook header |
| Vorbis.OpenTags | src/rsvc/vorbis.c:429-466 | the file opens iff its header reads, with the header's error otherwise; the tags hold the comments decoded from the second packet, the first page's serial number, the first and third packets and every page after the header |
| Vorbis.Back | src/rsvc/vorbis.c:481-492 | a chunk boundary lies within the file, is the end for no chunk, and is the start once the chunks cover the file |
| Vorbis.BackStep | src/rsvc/vorbis.c:492-527 | one chunk further back is 4096 bytes earlier, or the start of the file |
| Vorbis.SmallFileNotFoundAsWritten | src/rsvc/vorbis.c:484-528 | as written, a file of at most 4096 bytes never has its last page found |
| Vorbis.LargeFileLastChunkAsWritten | src/rsvc/vorbis.c:484-528 | as written, a larger file is searched in its last 4096 bytes only |
| Vorbis.ReadBackFinds | src/rsvc/vorbis.c:472-535 | as intended, the granule found is that of the last page in the shortest tail of the file, in steps of 4096 bytes up to 64 KiB, that holds a page; the search fails exactly when no such tail holds one |
| Vorbis.SmallFileFound | src/rsvc/vorbis.c:472-535 | as intended, a file of at most 4096 bytes is searched whole |
| Vorbis.FedTail | src/rsvc/vorbis.c:504-510 | the chunks fed oldest first make up the tail of the file from the oldest chunk's start |
| Vorbis.FeedChunks | src/rsvc/vorbis.c:504-510 | the feeding loop fills the sync buffer with the chunks read so far, oldest first |
| Vorbis.ReadBackNext | src/rsvc/vorbis.c:484-528 | a round that finds no page goes on with the next chunk back |
| Vorbis.ReadLastPage | src/rsvc/vorbis.c:472-535 | the loop, as corrected, yields the search `ReadBack` defines |
| Vorbis.AudioInfo | src/rsvc/vorbis.c:537-569 | audio info is had iff the header reads and a last page is found, with the first of their errors otherwise; the rate and channels come from the identification header, the samples per channel from the last page, at 16 bits and a block align of 2 bytes per channel |
| Vorbis.LastChunkOnlyAsWritten | src/rsvc/vorbis.c:484-528 | as written, on a file larger than 4096 bytes every round after the first feeds an empty chunk, so the result is whatever the last 4096 bytes give |
| Opus.OpusTags.constructor | src/rsvc/opus.c:139-145 | the tags hold the serial number, the two header packets and the comments |
| Opus.OpusTags.Add | src/rsvc/opus.c:43-50 | always refused: "opus tags are read-only" |
| Opus.OpusTags.Remove | src/rsvc/opus.c:52-57 | always refused, with or without a name: "opus tags are read-only" |
| Opus.OpusTags.Save | src/rsvc/opus.c:59-63 | always succeeds |
| Opus.TagMethodsRefuse | src/rsvc/opus.c:43-63 | seen through the generic calls, Opus tags refuse every clear, and every removal and addition of a valid name, with "opus tags are read-only", and their save succeeds |
| Opus.OpusTags.Begin | src/rsvc/opus.c:116-127 | a new iterator at the first of the comments |
| Opus.OpusCheck | src/rsvc/opus.c:223-238 | a refused first packet is "bad opus header", a refused second one "bad opus tags" |
| Opus.OpusFrom | src/rsvc/opus.c:177-245 | a successful read has accepted exactly the two header packets |
| Opus.LaterPagesIgnored | src/rsvc/opus.c:199-244 | once both header packets are in, the rest of the file only has to stay one logical stream; its packets are never looked at |
| Opus.OpusFromShape | src/rsvc/opus.c:177-245 | a successful read has checked every page of the file, the header packets are those accepted before and those of the pages that completed them, and each was accepted at its position |
| Opus.OpusHeader | src/rsvc/opus.c:177-245 | a successful read has a file that is one logical stream and whose first pages hold exactly the identification and comment headers, each accepted as such |
| Opus.TooFewPackets | src/rsvc/opus.c:181-185 | a file with fewer than two packets in all is refused |
| Opus.OpusNext | src/rsvc/opus.c:189-244 | one page more of the loop: checked, and drained only while the header is incomplete |
| Opus.OpenTags | src/rsvc/opus.c:138-254 | the file opens iff the page loop succeeds, with its error otherwise; the tags keep the first page's serial number, the two header packets and the comments decoded from the second |
| Mad.Wrap32 | src/rsvc/mad.c:99 | the rounding addition on a 32-bit `mad_fixed_t` keeps the sum modulo 2^32 in the signed 32-bit range, and changes no sum that fits |
| Mad.Clip | src/rsvc/mad.c:100-105 | the clipped sample lies in [-1.0, 1.0) and is the sample itself when that already does, else the nearest bound |
| Mad.Quantize | src/rsvc/mad.c:107 | the shift gives the 16-bit sample whose step holds the value: the floor of the division by the quantum |
| Mad.Scale | src/rsvc/mad.c:97-108 | as intended, every fixed-point sample becomes a 16-bit sample |
| Mad.ScaleWrapsAsWritten | src/rsvc/mad.c:99 | as written, the largest fixed-point value wraps on rounding and comes out as -32768 instead of 32767 |
| Mad.ScaleAgrees | src/rsvc/mad.c:97-108 | on every sample whose rounding does not overflow, the code as written and as intended agree |
| Mad.ScaleRounds | src/rsvc/mad.c:97-108 | within range, the 16-bit sample is the fixed-point value rounded to the nearest step |
| Mad.ScaleMonotone | src/rsvc/mad.c:97-108 | as intended, scaling keeps the order of samples |
| Mad.Frame | src/rsvc/mad.c:124-126 | one output frame has one sample per channel |
| Mad.Interleaved | src/rsvc/mad.c:123-127 | the output holds length times channels samples |
| Mad.FrameAt | src/rsvc/mad.c:124-126 | a frame's c-th sample is channel c's sample, scaled |
| Mad.InterleavedAt | src/rsvc/mad.c:123-127 | sample i of channel c, scaled, lands at position i·channels + c of the output, as a 16-bit sample |
| Mad.OutputFrame | src/rsvc/mad.c:124-126 | the inner loop produces the frame `Frame` defines |
| Mad.Output | src/rsvc/mad.c:117-132 | the loops produce the interleaved samples `Interleaved` defines |
| Mad.Channels | src/rsvc/mad.c:74-85 | one channel for single-channel mode and only for it, else two |
| Mad.FramesInfoFields | src/rsvc/mad.c:72-115 | the gathered info counts every frame's samples per channel and, when there were frames, takes the rate and channels of the last header, at 16 bits and 2 bytes per channel |
| Mad.HexPadded | src/rsvc/mad.c:141-142 | the `%08lx` spelling reads back as the offset and has at least eight digits |
| Mad.Userdata.constructor | src/rsvc/mad.c:186-190 | an empty input buffer at position 0 with zeroed audio info |
| Mad.Userdata.OnHeader | src/rsvc/mad.c:72-91 | the header sets the rate, channels, 16 bits and block align and keeps the sample count; the input state is untouched |
| Mad.Userdata.OnCount | src/rsvc/mad.c:110-115 | each frame adds its length to the samples per channel; nothing else changes |
| Mad.Userdata.OnError | src/rsvc/mad.c:134-145 | a recoverable error continues; any other breaks with "decoding error: MESSAGE at OFFSET", the offset in eight hex digits |
| Mad.Userdata.MoveLeftover | src/rsvc/mad.c:52-57 | the undecoded bytes move to the start of the buffer |
| Mad.Userdata.Fill | src/rsvc/mad.c:60 | the bytes read land right after the kept prefix |
| Mad.Userdata.Input | src/rsvc/mad.c:47-70 | a read error breaks and end of input stops, both changing no position; otherwise the buffer holds the undecoded bytes followed by those read, and the end and the file position advance by the bytes read |
| Mad.Userdata.Refill | src/rsvc/mad.c:52-68 | the buffer holds the kept prefix and the bytes read, and the window over the input moves by the bytes read |
| Mad.ErrorPositionIsOffset | src/rsvc/mad.c:137 | the position reported is the file offset of the failing frame's first byte |
| Mad.FramesInfoNext | src/rsvc/mad.c:72-115 | one more frame updates the info as its header and count callbacks do |
| Mad.OnFrame | src/rsvc/mad.c:72-115 | one frame's header and count callbacks update the info as `Gathered` defines |
| Mad.OnFrames | src/rsvc/mad.c:147-160 | the decoding run over the frames yields the info `FramesInfo` defines |
| Mad.GetAudioInfo | src/rsvc/mad.c:147-160 | from zeroed info, the run over the frames yields the info `FramesInfo` defines |
| Jpeg.ReadShort | src/rsvc/jpeg.c:34-36 | a 16-bit value |
| Jpeg.ReadShortValue | src/rsvc/jpeg.c:34-36 | the two bytes read most significant first |
| Jpeg.Walk | src/rsvc/jpeg.c:51-139 | as corrected, a frame header found gives no palette and a 16-bit width and height |
| Jpeg.Info | src/rsvc/jpeg.c:51-139 | the marker loop, as corrected, yields the walk `Walk` defines |
| Jpeg.SoiFirst | src/rsvc/jpeg.c:68-72 | a file that does not begin with the SOI marker is refused |
| Jpeg.MinimalJpegRoundTrip | src/rsvc/jpeg.c:51-139 | SOI followed by a baseline frame header reads back the frame's width, height and sample precision |
| Jpeg.FilledJpegRoundTrip | src/rsvc/jpeg.c:77-81 | a fill byte before the frame marker changes nothing, as corrected |
| Jpeg.WalkShift | src/rsvc/jpeg.c:56-131 | after SOI the walk depends only on the bytes that are left |
| Jpeg.FrameShift | src/rsvc/jpeg.c:113-127 | reading a frame header depends only on the bytes that are left |
| Jpeg.FillAsWrittenMisreads | src/rsvc/jpeg.c:78-81 | as written, FF D8 FF FF C0 … skips the C0 and fails with a bad marker; corrected, the frame header is read |
| Jpeg.SofAsWrittenSwapsAxes | src/rsvc/jpeg.c:122-124 | as written, a frame of 16 lines of 32 samples is reported 16 wide and 32 high; corrected, 32 wide and 16 high |
| Jpeg.SkipAsWrittenOverruns | src/rsvc/jpeg.c:78-94 | as written, a file ending right after a restart marker or a fill byte is skipped past its end; corrected, it is an "unexpected eof" |
| Png.ReadSize | src/rsvc/png.c:38-43 | the four bytes read most significant first, below 2^32 |
| Png.BigEndianFour | src/rsvc/png.c:38-43 | the shifts and sums of `read_size` compute the big-endian value |
| Png.Walk | src/rsvc/png.c:45-116 | the size read is 32-bit; once IHDR of a palette image is seen, the width and height are those of IHDR at depth 8 |
| Png.Info | src/rsvc/png.c:45-116 | the chunk loop yields the walk `Walk` defines |
| Png.PaletteIhdrStep | src/rsvc/png.c:66-91 | IHDR of a palette image is stepped over with its size recorded |
| Png.OtherStep | src/rsvc/png.c:97-107 | after IHDR, a chunk other than PLTE is stepped over |
| Png.Chunk | src/rsvc/png.c:53-107 | a chunk is length, type, data and CRC |
| Png.IhdrBody | src/rsvc/png.c:87-93 | the IHDR body has 13 bytes |
| Png.ChunkFields | src/rsvc/png.c:53-64 | a chunk's length field reads back as its data's length, and its type and data are where the walk reads them |
| Png.IhdrStep | src/rsvc/png.c:66-96 | an IHDR chunk without a palette gives its width, height and depth; with one, the walk goes on at depth 8 |
| Png.PlteStep | src/rsvc/png.c:98-105 | PLTE gives one palette entry per three bytes, at depth 8; a length not a multiple of 3 is "bad PLTE size" |
| Png.OtherChunkSkipped | src/rsvc/png.c:97-107 | any other chunk after IHDR is skipped whole |
| Png.IhdrRoundTrip | src/rsvc/png.c:45-96 | a signature and an IHDR for an image without a palette read back its width, height and depth |
| Png.PaletteRoundTrip | src/rsvc/png.c:45-105 | a signature, IHDR for a palette image and PLTE read back the width, height, depth 8 and the palette size |
| Png.IhdrFirst | src/rsvc/png.c:66-70 | a file whose first chunk is not IHDR is refused with "IHDR not first" |
| Wav.U32le | src/rsvc/wav.c:56-58 | a 32-bit value |
| Wav.U16le | src/rsvc/wav.c:60-62 | a 16-bit value |
| Wav.U32leValue | src/rsvc/wav.c:56-58 | the four bytes read least significant first |
| Wav.U16leValue | src/rsvc/wav.c:60-62 | the two bytes read least significant first |
| Wav.U32RoundTrip | src/rsvc/wav.c:64-69 | reading back what `u32le_out` stored gives the value modulo 2^32, as its `uint32_t` parameter keeps it |
| Wav.U32ReadBack | src/rsvc/wav.c:56-69 | four bytes stored for a 32-bit value read back as that value |
| Wav.U16ReadBack | src/rsvc/wav.c:60-74 | two bytes stored for a 16-bit value read back as that value |
| Wav.U16RoundTrip | src/rsvc/wav.c:71-74 | reading back what `u16le_out` stored gives the value modulo 2^16 |
| Wav.U32leOut | src/rsvc/wav.c:64-69 | the four low-order bytes of the value are stored at the offset, least significant first, and the bytes before are kept |
| Wav.U16leOut | src/rsvc/wav.c:71-74 | the two low-order bytes of the value are stored at the offset, least significant first, and the bytes before are kept |
| Wav.ParseFmt | src/rsvc/wav.c:129-134 | the format fields are 16- and 32-bit values read from their offsets |
| Wav.FmtValidate | src/rsvc/wav.c:101-117 | a format is accepted iff it is PCM, its byte rate is block align times sample rate in 32-bit arithmetic, and the audio info passes validation; any other format is "unsupported audio format: N" |
| Wav.Walk | src/rsvc/wav.c:157-197 | a successful walk yields a non-zero block align and validated info; after a `fmt ` chunk, the info is that chunk's |
| Wav.Read | src/rsvc/wav.c:146-198 | a successful read yields a non-zero block align and validated info; a file that does not start with "RIFF" … "WAVE" is "not a wav file" |
| Wav.Info | src/rsvc/wav.c:146-198 | the reader, with the seek test corrected, yields the outcome `Read` defines |
| Wav.WalkChunks | src/rsvc/wav.c:157-197 | the chunk loop, with the seek test corrected, yields the walk `Walk` defines |
| Wav.Header | src/rsvc/wav.c:227-246 | the header is 44 bytes |
| Wav.HeaderParts | src/rsvc/wav.c:234-246 | the header is "RIFF", the size and "WAVE", then the `fmt ` chunk, then the `data` chunk header |
| Wav.EncodeHeader | src/rsvc/wav.c:223-248 | audio info refused by validation is passed on; otherwise the header written is the canonical one, recording the corrected RIFF size |
| Wav.ReadStarts | src/rsvc/wav.c:148-153 | past "RIFF", the size and "WAVE" the walk starts at offset 12 and ends at 8 plus the recorded size |
| Wav.FmtStep | src/rsvc/wav.c:167-180 | on a seekable file a valid `fmt ` chunk is read and stepped over whole, and the walk goes on with its format |
| Wav.SkipStep | src/rsvc/wav.c:191-196 | on a seekable file a chunk that is neither `fmt ` nor `data` is stepped over whole, by either seek test |
| Wav.DataStep | src/rsvc/wav.c:181-190 | a `data` chunk after `fmt ` ends the walk with its size in blocks, or "trailing bytes in wav data" when it is not a whole number of blocks |
| Wav.FmtRoundTrip | src/rsvc/wav.c:239-244 | the sixteen bytes of the written `fmt ` chunk parse back to PCM with the info's fields, the byte rate kept modulo 2^32 |
| Wav.HeaderRoundTrip | src/rsvc/wav.c:146-246 | a header the encoder writes reads back as the same audio info, whatever follows it, on a RIFF size at least the corrected one |
| Wav.LayoutRead | src/rsvc/wav.c:146-190 | a file whose first chunks are a `fmt ` for some info and a `data` of its size reads back as that info |
| Wav.DataRead | src/rsvc/wav.c:181-190 | a `data` chunk of whole blocks after the `fmt ` for some info ends the walk with that info |
| Wav.ThreeWords | src/rsvc/wav.c:234-236 | three 32-bit words written in a row read back as those words |
| Wav.RiffSizeAsWrittenOverstates | src/rsvc/wav.c:232 | as written, 8 plus the recorded RIFF size is four bytes more than the file; corrected, it is the file's length |
| Wav.SkipAsWrittenIgnoresSeekError | src/rsvc/wav.c:192-195 | as written, on a pipe the failing seek goes unnoticed and the walk reads the chunk's body as the next chunk header; corrected, the seek error is reported |
| Wav.SkipTestsAgreeWhenSeekable | src/rsvc/wav.c:192-195 | on a seekable file the two seek tests give the same walk |
| Wav.ReadAgreesWhenSeekable | src/rsvc/wav.c:146-198 | on a seekable file the corrected reader equals the one as written |
| Id3Table.FirstFrom | src/rsvc/id3.c:301-312 | the index found satisfies the test and no index before it in the range does; none is found exactly when no index in the range does |
| Id3Table.FirstFromIs | src/rsvc/id3.c:301-312 | a scan finds an index that satisfies the test when nothing before it does |
| Id3Table.Chars | src/rsvc/id3.c:313 | the characters of a byte string, one per byte |
| Id3Table.Id3Spec | src/rsvc/id3.c:299-315 | the entry found has a type for the version and the frame name asked for; otherwise the error names the four bytes as "NAME: invalid ID3 frame type" |
| Id3Table.VorbisSpec | src/rsvc/id3.c:318-328 | the entry found carries the Vorbis name; otherwise "no such ID3 tag: NAME" |
| Id3Table.Paired | src/rsvc/id3.c:331-341 | the partner found is another entry with the same frame name |
| Id3Table.Id3SpecFirst | src/rsvc/id3.c:299-315 | the frame found for a name is the first entry that qualifies, and the lookup fails exactly when none does |
| Id3Table.VorbisSpecFirst | src/rsvc/id3.c:318-328 | the entry found for a Vorbis name is the first carrying it, and the lookup fails exactly when none does |
| Id3Table.PairedFirst | src/rsvc/id3.c:331-341 | the partner is the first other entry with the frame name, and there is none exactly when no other entry shares it |
| Id3Table.NamesFour | src/rsvc/id3.c:195-294 | every frame name has four characters |
| Id3Table.VorbisSpecEditable | src/rsvc/id3.c:195-294 | a Vorbis name always resolves to an entry whose ID3v2.4 type has an adder and a remover: the ID3v2.3-only entries that share a name are never reached |
| Id3Table.Shadowed | src/rsvc/id3.c:254-264 | each ID3v2.3-only entry with a Vorbis name repeats the name of an earlier ID3v2.4 entry |
| Id3Table.Text23Named | src/rsvc/id3.c:195-294 | every ID3v2.3 text entry has a Vorbis name |
| Id3Table.Text23Rekeys | src/rsvc/id3.c:870-898 | re-keying an ID3v2.3 text frame by its Vorbis name always succeeds, on an entry no later than the frame's own whose ID3v2.4 type has an adder and a remover |
| Id3Table.V3KindsWritable | src/rsvc/id3.c:195-294 | an entry's ID3v2.3 passthru, image or bool type is also its ID3v2.4 type, so frames read from ID3v2.3 can be written |
| Id3Table.NameLetter | src/rsvc/id3.c:195-294 | every frame name has four characters, the first a capital letter, so its first byte is never NUL |
| Id3Table.Text23OnlyV3 | src/rsvc/id3.c:195-294 | only ID3v2.3 types are re-keyed text |
| Id3Table.SequenceEntries | src/rsvc/id3.c:202-205 | only the four "n/t" entries have the sequence types |
| Id3Table.SequencePaired | src/rsvc/id3.c:202-205 | the partner of a number entry is the total entry just after it, and the partner of a total entry the number entry just before it |
| Id3Table.TyerFrame | src/rsvc/id3.c:255 | an ID3v2.3 "TYER" frame is found at the ID3v2.3-only year entry |
| Id3Table.DateIsTdrc | src/rsvc/id3.c:246 | the Vorbis name DATE resolves to the ID3v2.4 "TDRC" text entry |
| Id3Table.ApicFrame | src/rsvc/id3.c:283 | "APIC" is found, for ID3v2.4, at the entry whose frames hold pictures |
| Id3Frames.Find | src/rsvc/id3.c:369-376 | the first frame of the given type, when there is one; none exactly when no frame has that type |
| Id3Frames.FindIs | src/rsvc/id3.c:369-376 | a frame of the type with none of that type before it is the one found |
| Id3Frames.Erase | src/rsvc/list.h:35-48 | unlinking one frame leaves one frame fewer |
| Id3Frames.ErasePushed | src/rsvc/list.h:35-48 | unlinking a frame before the last one commutes with appending at the tail |
| Id3Frames.ErasedSingle | src/rsvc/id3.c:1016-1029 | unlinking the only frame of a type leaves none of that type |
| Id3Frames.TextAdd | src/rsvc/id3.c:905-915 | fails with "only one ID3 … tag permitted" exactly when a frame of the type is already there; otherwise appends one frame of that type holding the value and keeps every other frame in place |
| Id3Frames.TextRemove | src/rsvc/id3.c:917-924 | with no frame of the type nothing changes; otherwise one frame is removed and every remaining frame was there before |
| Id3Frames.TextAddRemove | src/rsvc/id3.c:905-924 | adding a text frame where there was none and then removing that type gives back the frames |
| Id3Frames.TextRemoveLeavesNone | src/rsvc/id3.c:917-924 | when a type occurs at most once, removing it leaves no frame of that type |
| Id3Frames.BoolAdd | src/rsvc/id3.c:935-943 | a value other than "0" or "1" fails with "ID3 … tag must be 0 or 1"; a flag is added like text, and so succeeds iff no frame of the type is there |
| Id3Frames.SlashAt | src/rsvc/id3.c:945-959 | the position of the first '/', or none when the text has no '/' |
| Id3Frames.SequenceSplit | src/rsvc/id3.c:945-959 | empty text yields nothing; otherwise number and total joined again give back the text, at least one of them is present, a present number is non-empty without '/', and the total is absent exactly when there is no '/' |
| Id3Frames.SplitJoin | src/rsvc/id3.c:945-959 | splitting a joined number and total gives back the two parts (the inverse of the join in `sequence_both_add`) |
| Id3Frames.CheckSeq | src/rsvc/id3.c:986-992 | a value is accepted iff it is absent or non-empty without '/' |
| Id3Frames.SequenceBothAdd | src/rsvc/id3.c:994-1030 | an unacceptable number is reported first, then an unacceptable total |
| Id3Frames.Restored | src/rsvc/id3.c:1016-1029 | replacing the only frame of a type by a joined frame at the tail leaves that frame single and last, holding exactly the given parts, with the other frames in order |
| Id3Frames.Pushed | src/rsvc/id3.c:1016-1029 | appending a joined frame where there was none leaves that frame single and last, holding exactly the given parts |
| Id3Frames.StoredPart | src/rsvc/id3.c:945-959 | a stored number, when present, is non-empty without '/' |
| Id3Frames.SequenceAddMerges | src/rsvc/id3.c:994-1030 | with the type occurring at most once and acceptable values: the add succeeds iff it sets no part that is already stored; then the frame is single and last, holding the stored parts merged with the new ones, and the other frames keep their order |
| Id3Frames.FirstAddMerges | src/rsvc/id3.c:994-1030 | the merge property when no frame of the type exists yet |
| Id3Frames.FirstAddPushes | src/rsvc/id3.c:1016-1029 | with no frame of the type, acceptable values are appended as one joined frame |
| Id3Frames.StoredAddMerges | src/rsvc/id3.c:994-1030 | the merge property when a frame of the type exists |
| Id3Frames.StoredAddRestores | src/rsvc/id3.c:1016-1029 | a successful merge into an existing frame meets every part of the merge property |
| Id3Frames.StoredAddReplaces | src/rsvc/id3.c:1002-1029 | with a frame already stored: setting a part it already holds fails; otherwise the old frame is unlinked and a joined frame with the stored and new parts is appended |
| Id3Frames.SequenceRemoveParts | src/rsvc/id3.c:1032-1051 | removing the number and/or the total keeps the other stored part, keeps the frame single, and drops the frame exactly when neither part is left |
| Id3Frames.SequenceRemoveKeepsEmpty | src/rsvc/id3.c:1032-1051 | a stored frame with empty text, or no frame at all, is left alone |
| Id3Frames.SequenceAddAsWrittenAgrees | src/rsvc/id3.c:994-1030 | when the stored frame's text is not empty, the code as written and the corrected add agree |
| Id3Frames.SequenceAddAsWrittenSilent | src/rsvc/id3.c:994-1030 | over a stored frame with empty text, the code as written returns without a result or error, where the corrected add stores the number |
| Id3Frames.Yield | src/rsvc/id3.c:900-903 | a frame yields at most two name/value pairs |
| Id3Frames.SequencePairs | src/rsvc/id3.c:961-973 | a sequence frame yields at most its number and its total |
| Id3Frames.AddYields | src/rsvc/id3.c:391-399 | a value added through an editable type's adder is yielded back by the frame it leaves at the tail under the same name |
| Id3Frames.NumberEntryAddYields | src/rsvc/id3.c:1053-1056 | a number added through the number type is yielded back under its name |
| Id3Frames.TotalEntryAddYields | src/rsvc/id3.c:1063-1066 | a total added through the total type is yielded back under its name |
| Id3Frames.TextEntryAddYields | src/rsvc/id3.c:900-943 | a text or flag value added is yielded back under its name |
| Id3Frames.NumberYields | src/rsvc/id3.c:961-973 | a joined frame with a number yields that number under the frame's name |
| Id3Frames.TotalYields | src/rsvc/id3.c:961-973 | a joined frame with a total yields that total under the paired name |
| Id3Frames.NumberAddYields | src/rsvc/id3.c:994-1030 | after a successful number add the last frame is the sequence frame and yields the number |
| Id3Frames.TotalAddYields | src/rsvc/id3.c:994-1030 | after a successful total add the last frame is the sequence frame and yields the total under the paired name |
| Id3Frames.PushedLast | src/rsvc/id3.c:994-1030 | a successful add sets only parts not already stored and leaves at the tail the frame joining the stored and the new parts |
| Id3Frames.ImageAdd | src/rsvc/id3.c:1113-1136 | appends one picture frame with the given kind, type, description and data, keeping every other frame in place |
| Id3Frames.Without | src/rsvc/id3.c:449-456 | no frame of the type is left, and none was added |
| Id3Frames.WithoutConcat | src/rsvc/id3.c:449-456 | removing a type from two runs of frames is removing it from each |
| Id3Frames.WithoutErase | src/rsvc/id3.c:449-456 | unlinking one frame of the type first does not change the result |
| Id3Frames.WithoutNone | src/rsvc/id3.c:449-456 | with no frame of the type nothing changes |
| Id3Frames.Images | src/rsvc/id3.c:416-433 | at most one image per frame, each of a recognised image format |
| Id3Frames.ImageAddYields | src/rsvc/id3.c:416-471 | after an image add, the images listed are those before followed by the new one when its type is a recognised image format |
| Id3Read.SyncSafe | src/rsvc/id3.c:536-547 | a size fails with the high-bit error exactly when one of its four bytes has the top bit set; otherwise it is the four 7-bit groups, most significant first, and below 2^28 |
| Id3Read.SevenBitsOfFour | src/rsvc/id3.c:536-547 | the 7-bit accumulation over four bytes is the positional base-128 value |
| Id3Read.ReadSyncSafe | src/rsvc/id3.c:536-547 | the loop computes the sync-safe size or its error |
| Id3Read.SyncUnsafe | src/rsvc/id3.c:549-556 | an ID3v2.3 frame size is the four bytes as a big-endian 32-bit number |
| Id3Read.ReadHeader | src/rsvc/id3.c:558-589 | fewer than ten bytes is a short read; a file not starting with "ID3" has no tag (version 0, size 0); a tag header is accepted iff its major version is 3 or 4, its flags byte is zero and its size is sync-safe; another version is reported as "unsupported ID3 version 2.M.R"; an accepted header keeps the version, revision and size |
| Id3Read.HeaderRevisionAsWritten | src/rsvc/id3.c:572-576 | the code as written rejects the ID3v2.4.1 header as version 2.260.0, where the corrected reader accepts it |
| Id3Read.HeaderAgreesWithoutRevision | src/rsvc/id3.c:558-589 | with revision 0 the code as written and the corrected reader agree |
| Id3Read.ReadEncoding | src/rsvc/id3.c:824-842 | an empty body ends the frame early; an encoding byte above the maximum is "unknown encoding"; otherwise the byte and the rest of the body are returned |
| Id3Read.UntilNul | src/rsvc/id3.c:885-891 | the longest NUL-free prefix, followed by a NUL in the data unless it is all of it |
| Id3Read.TextRead | src/rsvc/id3.c:844-868 | a text frame read appends one frame of its type whose text holds no NUL, keeping every earlier frame |
| Id3Read.TextReadBack | src/rsvc/id3.c:844-868 | reading a UTF-8 body written as encoding 3, the value and its NUL gives the same frames as adding the value |
| Id3Read.ShapedNul | src/rsvc/id3.c:844-868 | a trailing NUL keeps well-formed UTF-8 well-formed |
| Id3Read.ShapedAppend | src/rsvc/id3.c:844-868 | two well-formed UTF-8 runs concatenate to a well-formed run |
| Id3Read.Text23Target | src/rsvc/id3.c:870-874 | an ID3v2.3-only text type is renamed through its Vorbis name to an editable ID3v2.4 type that appears no later in the table |
| Id3Read.Text23Read | src/rsvc/id3.c:870-898 | a read appends one frame of the renamed type whose text holds no NUL, keeping every earlier frame |
| Id3Read.ZeroAt | src/rsvc/id3.c:1078-1079 | the position of the first NUL byte, or none when there is none |
| Id3Read.ZeroUnit | src/rsvc/id3.c:1087-1091 | the first NUL 16-bit unit at or after the start, or none when there is none |
| Id3Read.NulTerminated | src/rsvc/id3.c:1073-1103 | Latin-1 or UTF-8 data without a NUL fails with the terminator message (spelled "mussing" in the code); the data left after the terminator is shorter than the input |
| Id3Read.ImageRead | src/rsvc/id3.c:1138-1172 | an image frame read appends one picture frame of its type whose MIME type and description hold no NUL, keeping every earlier frame |
| Id3Read.ImageReadAsWrittenOverruns | src/rsvc/id3.c:1150-1155 | a body that ends right after the MIME type's NUL makes the code as written read the image type past the frame, where the corrected reader fails with "unexpected end of frame" |
| Id3Read.ImageReadAgrees | src/rsvc/id3.c:1138-1172 | when the MIME type's NUL is followed by more than one byte, the code as written and the corrected reader agree |
| Id3Read.ImageReadBack | src/rsvc/id3.c:1138-1172 | reading a body laid out as encoding 3, MIME type, NUL, image type, description, NUL and data gives the same frames as adding that image |
| Id3Read.DescriptionReadBack | src/rsvc/id3.c:1073-1103 | a NUL-free UTF-8 description followed by NUL and data splits back into the terminated description and the data |
| Id3Read.DescriptionDecoded | src/rsvc/id3.c:1073-1103 | the terminated description splits off its data |
| Id3Read.ZeroAfter | src/rsvc/id3.c:1078-1079 | the first NUL of a NUL-free run, a NUL and more data is the one after the run |
| Id3Read.UntilNulOf | src/rsvc/id3.c:885-891 | the prefix before the first NUL of a NUL-free run, a NUL and more data is the run |
| Id3Read.FrameExtent | src/rsvc/id3.c:630-672 | a frame header is accepted iff its size decodes for the tag version, both flag bytes are zero and the body fits in the data; the extent is the ten header bytes plus the body |
| Id3Read.FrameExtentOk | src/rsvc/id3.c:630-672 | an accepted header gives that extent |
| Id3Read.FrameContent | src/rsvc/id3.c:630-672 | a successful frame read consumes exactly its extent and returns what its type's reader made of its body |
| Id3Read.FrameContentOk | src/rsvc/id3.c:630-672 | an accepted extent and a successful body read give that result |
| Id3Read.FrameStep | src/rsvc/id3.c:630-672 | an unknown frame ID is reported as such; otherwise a failure of the frame is reported prefixed with the frame's name |
| Id3Read.FrameStepBounds | src/rsvc/id3.c:630-672 | a frame read consumes at least its header and no more than the data |
| Id3Read.WalkStops | src/rsvc/id3.c:591-628 | fewer than ten bytes left or a zero byte ends the frames: the rest must be zero padding, else "junk data after last ID3 tag" |
| Id3Read.WalkStep | src/rsvc/id3.c:591-628 | otherwise one frame is read and the walk goes on after it; a frame error ends the walk with that error |
| Id3Read.ReadFrames | src/rsvc/id3.c:591-628 | the loop over the tag's data gives the frames of the walk or its error |
| Id3Read.Zeros | src/rsvc/id3.c:616-622 | the padding scan answers whether every byte from the stop onwards is zero |
| Id3Read.WalkPadding | src/rsvc/id3.c:591-628 | after the stop the walk succeeds with the frames read so far exactly when all the rest is zero |
| Id3Read.ReadTags | src/rsvc/id3.c:511-534 | a file without a tag reads as no frames; a tagged file reads the header, then the frames from the tag's data, which lies within the file |
| Id3Read.ReadTagsOk | src/rsvc/id3.c:511-534 | a header, a tag that fits the file and a successful walk give that header and those frames |
| Id3Write.SyncSafeBytes | src/rsvc/id3.c:768-773 | four bytes, each below 0x80 |
| Id3Write.SyncSafeRoundTrip | src/rsvc/id3.c:768-773 | reading back a written size gives the size modulo 2^28: the writer keeps only the low 28 bits |
| Id3Write.SyncSafeReadBack | src/rsvc/id3.c:768-773 | a size below 2^28 reads back unchanged |
| Id3Write.WriteSyncSafe | src/rsvc/id3.c:768-773 | the loop stores the four sync-safe bytes at the offset and changes nothing else in the buffer |
| Id3Write.CopyInto | src/rsvc/id3.c:930-933 | a copy stores the bytes at the offset and changes nothing else in the buffer |
| Id3Write.BodySizeIs | src/rsvc/id3.c:926-1219 | each frame type's size function is the length of what its writer produces |
| Id3Write.TextLayout | src/rsvc/id3.c:926-933 | an editable text frame is written as encoding 3, its text and a NUL, two bytes more than its text |
| Id3Write.FrameBytes | src/rsvc/id3.c:781-791 | a frame is written as its ten header bytes followed by its body |
| Id3Write.FramesBytesSize | src/rsvc/id3.c:679-688 | the frames written take exactly the summed size the tag size is computed from |
| Id3Write.FramesBytesFront | src/rsvc/id3.c:781-791 | the frames are written first frame first |
| Id3Write.TagSize | src/rsvc/id3.c:679-688 | the tag body is the frames' size, or the size read in when that is larger: the tag never shrinks |
| Id3Write.ComputeTagSize | src/rsvc/id3.c:679-688 | the loop over the frames computes that tag size |
| Id3Write.Zeros | src/rsvc/id3.c:695-696 | n zero bytes, which count as padding |
| Id3Write.TagBody | src/rsvc/id3.c:679-697 | the tag body is exactly as long as the tag size |
| Id3Write.HeaderBytes | src/rsvc/id3.c:775-779 | a tag header is ten bytes |
| Id3Write.HeaderReadBack | src/rsvc/id3.c:775-779 | a written header reads back as ID3v2.4.0 with the size written, when the size is below 2^28 |
| Id3Write.WriteFrame | src/rsvc/id3.c:781-791 | one iteration stores the frame's bytes at the offset and changes nothing else in the buffer |
| Id3Write.WriteFrames | src/rsvc/id3.c:781-791 | the loop stores all frames' bytes from the start of the body and leaves the rest of the buffer as it was |
| Id3Write.WriteNext | src/rsvc/id3.c:781-791 | each step extends the bytes written by one frame and advances the offset by its size |
| Id3Write.FramesAppend | src/rsvc/id3.c:781-791 | one more frame adds its header and body to the size and its bytes to the end |
| Id3Write.FramesSizeGrows | src/rsvc/id3.c:679-688 | the frames before any point take no more than all of them |
| Id3Write.WriteTags | src/rsvc/id3.c:679-697 | the header holds the tag size and the freshly allocated body holds the frames' bytes followed by zero padding up to the tag size |
| Id3Write.ZeroedBody | src/rsvc/id3.c:693-697 | frames written over a zeroed buffer of the tag size give the tag body |
| Id3Write.ZerosDrop | src/rsvc/id3.c:693-697 | what follows the frames in a zeroed buffer is zero |
| Id3Write.NewFile | src/rsvc/id3.c:679-766 | the new file holds at least the header and the tag body |
| Id3Write.ReadBodyBack | src/rsvc/id3.c:926-1219 | each readable frame's written body reads back as that frame (a text frame where none of its type was read yet) |
| Id3Write.FrameHeaderBack | src/rsvc/id3.c:781-791 | a written frame's header gives its ID and an extent that covers exactly its body |
| Id3Write.FrameReadBack | src/rsvc/id3.c:630-672 | reading a written frame gives back that frame and consumes exactly its bytes |
| Id3Write.NameStarts | src/rsvc/id3.c:195-294 | a written frame does not start with a zero byte, so it is not taken for padding |
| Id3Write.WalkOneBack | src/rsvc/id3.c:591-628 | the walk over a written frame reads it and goes on after it |
| Id3Write.WalkReadBack | src/rsvc/id3.c:591-628 | written frames followed by zero padding read back as those frames, in order, when no text type occurs twice |
| Id3Write.WalkFirstBack | src/rsvc/id3.c:591-628 | the walk over written frames reads the first of them and goes on with the others |
| Id3Write.OnceShifted | src/rsvc/id3.c:591-628 | moving the first frame to the frames already read keeps each text type at most once |
| Id3Write.TagReadBack | src/rsvc/id3.c:679-791 | a saved file reads back as an ID3v2.4.0 header with the tag size and exactly the frames saved, when no text type occurs twice and the size is below 2^28 |
| Id3.V3Kinds | src/rsvc/id3.c:195-294 | every ID3v2.3 type in the table is none, renamed text, bool, passthru, image or discard |
| Id3.ReadBodyWritable | src/rsvc/id3.c:630-672 | reading a frame body of either version keeps every frame writable as ID3v2.4 |
| Id3.Text23BodyWritable | src/rsvc/id3.c:870-898 | a renamed ID3v2.3 text frame is writable as ID3v2.4 |
| Id3.ImageBodyWritable | src/rsvc/id3.c:1138-1172 | an image frame read is writable |
| Id3.TextBodyWritable | src/rsvc/id3.c:844-868 | a text, bool or sequence frame read is writable |
| Id3.OtherBodyWritable | src/rsvc/id3.c:1201-1224 | a passthru frame read is writable and a discarded one adds nothing |
| Id3.WalkWritable | src/rsvc/id3.c:591-628 | every frame of a tag read from a file can be written back by the ID3v2.4 writer |
| Id3.AddNamed | src/rsvc/id3.c:391-399 | a name without an ID3 frame type fails with the lookup's error |
| Id3.RemoveNamed | src/rsvc/id3.c:382-389 | a name without an ID3 frame type fails with the lookup's error; a known name always succeeds, adding at most the one rewritten sequence frame |
| Id3.SequenceAddFrom | src/rsvc/id3.c:994-1030 | after a sequence add every frame was there before or is the rewritten text frame of the number type |
| Id3.SequenceRemoveFrom | src/rsvc/id3.c:1032-1051 | after a sequence removal every frame was there before or is the rewritten text frame of the number type |
| Id3.RemoveShape | src/rsvc/id3.c:382-389 | a removal through any editable type leaves frames that were there before or are editable text frames |
| Id3.RemoveNumberShape | src/rsvc/id3.c:1058-1061 | the same for removing a number |
| Id3.RemoveTotalShape | src/rsvc/id3.c:1068-1071 | the same for removing a total |
| Id3.SequenceRemoveEditable | src/rsvc/id3.c:1032-1051 | the sequence removal leaves frames that were there before or are editable text frames |
| Id3.RemoveTextShape | src/rsvc/id3.c:917-924 | the same for removing a text or bool value |
| Id3.TextFrameWritable | src/rsvc/id3.c:926-933 | a text frame of an editable type is writable |
| Id3.AddWritable | src/rsvc/id3.c:391-399 | adding through an editable type keeps every frame writable |
| Id3.AddNamedWritable | src/rsvc/id3.c:391-399 | adding by name keeps every frame writable |
| Id3.RemoveNamedWritable | src/rsvc/id3.c:382-389 | removing by name keeps every frame writable |
| Id3.AddNamedYields | src/rsvc/id3.c:391-414 | a value added by name is listed under that name afterwards |
| Id3.AddNamedRemoveNamed | src/rsvc/id3.c:382-399 | adding a plain text value by name where none is stored, then removing that name, gives back the frames |
| Id3.PairsPrefix | src/rsvc/id3.c:401-414 | the pairs of the frames visited so far are a prefix of all pairs |
| Id3.ImagesPrefix | src/rsvc/id3.c:416-433 | the images of the frames visited so far are a prefix of all images |
| Id3.PairsNext | src/rsvc/id3.c:401-414 | one more frame adds its own pairs |
| Id3.PairsDone | src/rsvc/id3.c:401-414 | visiting all pairs of one more frame gives the pairs up to it |
| Id3.PairsStop | src/rsvc/id3.c:401-414 | a pair that stops ends the listing right after it |
| Id3.PairsAll | src/rsvc/id3.c:401-414 | when no pair stops, all pairs are listed |
| Id3.ImagesShown | src/rsvc/id3.c:416-433 | a recognised image that does not stop is added to those listed |
| Id3.ImagesHidden | src/rsvc/id3.c:416-433 | a frame that shows no image adds nothing |
| Id3.ImagesNext | src/rsvc/id3.c:416-433 | one more frame adds its image when it shows one |
| Id3.ImagesStop | src/rsvc/id3.c:416-433 | an image that stops ends the listing right after it |
| Id3.ImagesAll | src/rsvc/id3.c:416-433 | when no image stops, all images are listed |
| Id3.EachAsWrittenPastStop | src/rsvc/id3.c:401-414 | the code as written delivers a track total after the caller stopped at the track number of the same frame, where the corrected listing ends at the number |
| Id3.SavedHeaderAsWritten | src/rsvc/id3.c:679-766 | the code as written keeps the header it read in after a save |
| Id3.SavedHeader | src/rsvc/id3.c:679-766 | after a save the tag is ID3v2.4.0 and no smaller than before or than its frames |
| Id3.SavedHeaderFits | src/rsvc/id3.c:679-766 | the saved file starts with that header and holds the whole tag |
| Id3.SaveTwice | src/rsvc/id3.c:714-762 | saving again with the updated header gives the same file |
| Id3.SaveTwiceAsWrittenDuplicates | src/rsvc/id3.c:714-762 | the code as written, saving an untagged file twice, writes the new tag in front of the first one |
| Id3.SkipTagsAsWritten | src/rsvc/id3.c:1226-1246 | the code as written skips at most the ten bytes already read unless the header is a tag |
| Id3.SkipTags | src/rsvc/id3.c:1226-1246 | a file not starting with "ID3" is not skipped into; a tag is skipped with its header and body; an unreadable header is handled as written |
| Id3.SkipTagsAsWrittenLosesAudio | src/rsvc/id3.c:1236-1244 | the code as written leaves the first ten bytes of an untagged file behind, where the corrected skip keeps them |
| Id3.SkipSavedTag | src/rsvc/id3.c:679-766 | skipping the tag of a saved file lands on the original audio after the old tag |
| Id3.Tags.constructor | src/rsvc/id3.c:511-534 | the object holds the frames, the header and the file it is given |
| Id3.Tags.Add | src/rsvc/id3.c:391-399 | the frames become those of adding by name, or stay unchanged with that error; header and file are unchanged |
| Id3.Tags.Remove | src/rsvc/id3.c:382-389 | the frames become those of removing by name; only an unknown name fails, and then nothing changes |
| Id3.Tags.Each | src/rsvc/id3.c:401-414 | the pairs delivered are all pairs up to and including the first that stops, and the result says whether none stopped |
| Id3.Tags.ImageEach | src/rsvc/id3.c:416-433 | the images delivered are all recognised images up to and including the first that stops, and the result says whether none stopped |
| Id3.Tags.ImageRemove | src/rsvc/id3.c:435-457 | removing by index fails with "not implemented" and changes nothing; otherwise every picture frame is removed |
| Id3.Tags.ImageAdd | src/rsvc/id3.c:459-471 | appends one picture frame of image type 0 with an empty description |
| Id3.Tags.Save | src/rsvc/id3.c:473-479 | the file becomes the new tag followed by the audio after the old tag, and the header is the one written |
| Id3.Open | src/rsvc/id3.c:511-534 | opening succeeds iff the tag reads, with the same error otherwise, and the object holds the header and frames read |

## Findings

| source | as written | input that shows it | evidently intended | confidence | as-written member | corrected member |
|---|---|---|---|---|---|---|
| src/rsvc/encoding.c:27-37 | `utf8_out` puts the low-order bits of the rune in the lead byte | U+00E9 is written C9 83, the same bytes as U+00C9 | the lead byte carries the high-order bits (RFC 3629, section 3): U+00E9 is C3 A9 | high; not executed | Encoding.Utf8OutAsWrittenCollides | Encoding.Utf8EncodeRoundTrip |
| src/rsvc/encoding.c:43 | the Latin-1 output buffer holds `2 * size - 1` bytes | one byte 0xE9 needs two output bytes | `2 * size` bytes | high; not executed | Encoding.Latin1CapacityAsWrittenOverflows | Encoding.DecodeLatin1 |
| src/rsvc/encoding.c:79-82 | a surrogate pair is combined without adding 0x10000 | D83D DE00 decodes to U+FE00 | U+1F600 (RFC 2781, section 2.2) | high; not executed | Encoding.Utf16PairAsWrittenDiffers | Encoding.Utf16RoundTrip |
| src/rsvc/encoding.c:75-83 | a unit that is not a low surrogate after a high surrogate is emitted and the surrogate kept | D800 0041 DC00 is accepted | an unpaired high surrogate is an error | medium; not executed | Encoding.Utf16UnpairedAsWrittenAccepted | Encoding.Utf16SurrogateErrors |
| src/rsvc/encoding.c:151 | four-byte leads are checked with mask 0xF1 | F1 80 80 80 (U+40000) is rejected, F8 80 80 80 accepted | mask 0xF8 (11110xxx) | high; not executed | Encoding.Utf8LeadAsWrittenDiffers | Encoding.DecodeUtf8 |
| src/rsvc/comment.c:85-91 | the inner `while` tests `(*curr)->name` after a removal without checking `*curr` | clearing "A" from the one-comment list [A=x] dereferences NULL | stop when the rest of the list is empty | high; not executed | Comments.ClearAsWrittenSingle | Comments.CommentList.Clear |
| src/rsvc/comment.c:168-171 | the stop block sets the cursor to NULL, and the loop step then reads `curr->next` | any block that calls stop | stopping ends the walk | high; not executed | Comments.EachAsWrittenStopCrashes | Comments.CommentList.Each |
| src/rsvc/options.c:153-158 | `*end` is checked, but not whether `strtol` read anything | `--select-image ""` stores 0 | an empty value is not an integer | medium; not executed | Options.EmptyIntegerAccepted | Options.RequireInteger |
| src/bin/cloak_move.c:103 | the loop bound `i <= nbseg` lets `_find_next_common_segment` compare `bseg[nbseg]`, one element past the destination array | renaming "a b" to "c": the search for " " (source index 1) reaches index 1 of the one-segment destination | the loop stops at `i < nbseg` | high; not executed | CloakMove.FindAsWrittenReadsPastEnd | CloakMove.FindCommon |
| src/bin/cloak.c:85-88 | a backslash run is doubled only when text other than a line break follows it, so a run that ends a value is written once and then reads as a line continuation | the tags A = two backslashes and B = empty print "A=", two backslashes, LF, "B=", LF; so does the one tag A = one backslash, LF, "B=" | a run is doubled before a line break or the end of the value, so every listing reads back | medium; not executed | Cloak.ListingAsWrittenAmbiguous | Cloak.ListingRoundTrip |
| src/bin/rsvc.c:447 | `multiply_safe` checks only `INT64_MAX / by < *value`, so a negative product that overflows is accepted and wraps | "-10e" reads successfully as 8446744073709551616 | a negative value is refused when `*value < INT64_MIN / by` | high; not executed | SiNumbers.NegativeWrapsAsWritten | SiNumbers.SiNumberScales |
| src/bin/rsvc.c:71-77 | print's (and eject's) `argument` handler returns false for a second device without reporting an error, so `done` is never called and `dispatch_main` never returns | `rsvc print /dev/a /dev/b` | report "too many arguments" as rip's handler does, ending with status 1 | high; not executed | Rsvc.SecondDeviceHangsAsWritten | Rsvc.SecondDeviceFails |
| src/bin/rsvc.c:133 | rip's `-p` stores its value in `rip_options.disk`, not the path format | `rsvc rip -p %a/%t /dev/a`: "too many arguments" | `-p` sets `path_format` | medium; not executed | Rsvc.RipPathSetsDeviceAsWritten | Rsvc.RipPathOption |
| src/rsvc/jpeg.c:78-81 | after a fill byte (FF FF) the walk steps one byte further instead of one byte back, so the marker that follows is lost | FF D8 FF FF C0 00 11 08 00 10 00 20 … reports "bad marker 0x0011" | the second FF starts the next marker, and the frame is read as 32×16 | high; not executed | Jpeg.FillAsWrittenMisreads | Jpeg.Walk |
| src/rsvc/jpeg.c:123-124 | width is read from the frame header's line count and height from its samples per line | a baseline frame with Y = 16 and X = 32 is reported as 16 wide and 32 high | width X, height Y (ITU-T T.81, section B.2.2) | high; not executed | Jpeg.SofAsWrittenSwapsAxes | Jpeg.Walk |
| src/rsvc/jpeg.c:78-94 | a fill byte or a restart marker is skipped without checking that bytes remain, so the size counter runs past zero | FF D8 FF D0 and FF D8 FF FF | the file ends early: "unexpected eof" | high; not executed | Jpeg.SkipAsWrittenOverruns | Jpeg.Walk |
| src/rsvc/wav.c:232 | the RIFF size is the header size minus 4 plus the data, 40 more than the data | any encoded file: the RIFF size announces 4 bytes more than follow it | the header size minus 8 plus the data, so that the RIFF chunk ends at the end of the file | high; not executed | Wav.RiffSizeAsWrittenOverstates | Wav.EncodeHeader |
| src/rsvc/wav.c:192 | `!lseek(…)` treats only a result of 0 as a failure, so a failing seek (-1) is ignored | a chunk other than `fmt ` or `data` on a pipe: the seek fails with ESPIPE and the walk goes on as if it had skipped | a negative result is an error | high; not executed | Wav.SkipAsWrittenIgnoresSeekError | Wav.Info |
| src/rsvc/gif.c:39 | the colour-table size is `2 << (packed & 0x08)`, which tests the sort flag instead of using the size field | packed byte 0xF7 gives 2 entries, 0x08 gives 512 | `2 << (packed & 0x07)` (GIF89a, section 18): 0xF7 gives 256, 0x08 gives 2 | high; not executed | Gif.PaletteAsWrittenDiffers | Gif.Palette |
| src/rsvc/vorbis.c:185 | a comment is removed when it starts with the name or has '=' at the name's length, since `&&` joins the two "keep" tests | removing ARTIST from ARTISTS=b, ALBUMS=x, TITLE=y leaves only TITLE=y | keep a comment unless it is the name followed by '=' | high; not executed | Vorbis.RemoveAsWrittenOverreaches | Vorbis.Removed |
| src/rsvc/vorbis.c:484-528 | the read position is computed from the end of the file every round, and the chunk read is not fed to the sync state before the search | a file of at most 4096 bytes never has its last page found; a larger one is searched in its last 4096 bytes only | step back 4096 bytes a round and feed each chunk | medium; not executed | Vorbis.SmallFileNotFoundAsWritten | Vorbis.ReadBackFinds |
| src/rsvc/mad.c:99 | the rounding add is done in 32 bits and wraps | sample 0x7FFFFFFF scales to -32768 | clip to 32767 | high; not executed | Mad.ScaleWrapsAsWritten | Mad.Scale |
| src/rsvc/id3.c:572 | `memcpy` copies the two version bytes into the first of two `int`s | the ID3v2.4.1 header is rejected as "unsupported ID3 version 2.260.0" | version 4, revision 1: accepted | high; not executed | Id3Read.HeaderRevisionAsWritten | Id3Read.ReadHeader |
| src/rsvc/id3.c:1150-1155 | the image type byte after the MIME type is read without checking that it lies in the frame | an APIC body 03 78 00 reads one byte past the frame | "unexpected end of frame" | high; not executed | Id3Read.ImageReadAsWrittenOverruns | Id3Read.ImageRead |
| src/rsvc/id3.c:994-1030 | over a stored sequence frame with empty text `sequence_split` calls no block, so the add returns false without reporting an error | adding track number 1 over an empty TRCK frame | the stored frame holds no parts, so the number is stored | medium; not executed | Id3Frames.SequenceAddAsWrittenSilent | Id3Frames.SequenceBothAdd |
| src/rsvc/id3.c:401-414 | the stop flag is checked only between frames, so a sequence frame delivers its total after the caller stopped at its number | a TRCK frame "3/12" with a block that stops at once: TRACKNUMBER and TRACKTOTAL are both delivered | stopping ends the listing | high; not executed | Id3.EachAsWrittenPastStop | Id3.Tags.Each |
| src/rsvc/id3.c:714-762 | the version and size read in are not updated after a save, so a second save copies from the old tag offset | saving an untagged file twice writes two tags | the header written becomes the one read | high; not executed | Id3.SaveTwiceAsWrittenDuplicates | Id3.SaveTwice |
| src/rsvc/id3.c:1236-1244 | a file without "ID3" has its first ten bytes consumed by the header read and not put back | an untagged MP3 loses its first ten bytes of audio | seek back to the start | medium; not executed | Id3.SkipTagsAsWrittenLosesAudio | Id3.SkipTags |

## Left out

- Logging (`rsvc_logf`) and the error-message formatting of src/rsvc/common.c (`vasprintf`, `strerror_r`) are not modelled; errors carry the message text only, and `rsvc_strerrorf` errors are named by their errno.
- Concurrency: dispatch queues, groups, cancellation and progress output, and the asynchronous orchestration (`rip_all`, `convert_read`/`convert_write`/`convert_recursive` scheduling, the dispatch recursion of `read_range`); the model is sequential, and `read_range` is modelled by the chunks it reads (`Cd.Chunks`).
- The codec libraries (libogg, libvorbis, libopus, libmad, libFLAC, LAME, Core Audio, libdiscid) are function parameters; their decode and encode loops, the float sample conversion of the Vorbis encoder and the Core Audio encoding loop are not modelled.
- `wav_audio_decode` and the data copy loop of `wav_audio_encode` are not modelled; only the header the encoder writes is.
- `rsvc_read`, `rsvc_write`, `lseek`, `pread`, `fstat` and their errors are not part of this model beyond what the reader functions take as byte sequences; `rsvc_audio_info_validate` is a parameter.
- OS device access: the udev watch loop and `rsvc_disc_eject` of src/rsvc/disc_linux.c, IOKit and DiskArbitration, and the ioctl of `fd_to_disc_type` (its eight-byte answer is a parameter).
- Real file-system effects (permissions, `chmod`, timestamps, `sendfile`, `copyfile`) are modelled over the abstract `Files.FileSystem` only. The `stat` results `rsvc convert` compares are parameters. The ID3 save's temporary file and `rsvc_refile` rename, and the file move of `cloak_move_file`, are not part of this model: a save yields the new file contents, and a move is a step whose outcome is given.
- The Vorbis `save` (rebuilding the stream through libvorbis) is not modelled; Opus `save` is, as the no-op it is.
- The iteration callbacks for images (`print_images`, `add_image` of cloak) are parameters; `rsvc_ext` is a parameter `hasExtension`.
- CloakApply.ApplyOps: the image listing is a function of the path alone, so it does not reflect the image removals and additions made earlier in the same run; `print_images` (src/bin/cloak.c:102-116) walks the edited tags.
- CloakApply.Perform: the MusicBrainz query of `rsvc_apply_musicbrainz_tags` (src/rsvc/musicbrainz.c) is a parameter giving its error or the fields found, values as the 1024-byte buffer of `set_mb_tag` holds them; how the fields are then added to the tags (`set_mb_tag`, src/rsvc/musicbrainz.c:40-57) is modelled.
- `rsvc_tags_addf` (a `vasprintf` wrapper), the ID3 `image_size`/`image_begin` helpers and the empty image iterator are not modelled separately; image sizes are covered by `Id3Write.BodySizeIs`.
- Usage texts are not reproduced: a usage exit is modelled by its status (`EX_USAGE`) and the fact that usage is printed.
- InfoCommand.Millis: the duration is the integer floor of 1000 × samples / rate; the C computes it through a `double`, and a rate of 0 (division by zero in the C) is taken as 0.
- Png.Walk: the bit depth is reported as the byte value; the C copies it through a `char`, which sign-extends depths of 0x80 and above on platforms where `char` is signed.
- Vorbis.RemovedAsWritten: for a comment shorter than the name the C reads past its terminating NUL; the model takes that byte as not '='.
- Cd.Built: requires at least one track, because with none the sector-end loop bound `ntracks - 1` underflows in the C.
- Cd.Readable: the model builds a disc only from a table of contents that `Cd.Readable` accepts; the C loads any table unchecked. It indexes the session array with a descriptor's session number without a range check (src/rsvc/cd.c:154, 175), stores track map entry -1 as the first or last track of a session when an A0 or A1 descriptor names a track that is not listed (src/rsvc/cd.c:178, 181), and leaves `track_end` NULL for a session without an A1 descriptor, which src/rsvc/cd.c:195 and 203 then dereference through `track_end - 1`. What the C does on such tables is not described.
- Wav.Walk: relies on `rsvc_audio_info_validate` (declared at include/rsvc/audio.h:37; its body is not part of this model) refusing a zero block alignment, as `Wav.RejectsZeroBlock` assumes of the parameter; if it did not, `size % block_align` at src/rsvc/wav.c:185 divides by zero, which the model does not describe.
- Tag.Methods: a format's `add`, `remove` and `save` are given by what they do to the listed pairs. The Opus methods are defined (`Opus.TagMethods`); those of Vorbis and ID3, whose edits work on comments and on frames with byte values (`Vorbis`, `Id3.Tags`), are parameters of `cloak` and are not derived from those modules.
- Comments.CommentList.Copy: copies the pairs as values; the C copy at src/rsvc/comment.c:53-63 shares the name and value strings of the source list, so the two lists alias storage that is freed with either, which the model does not capture.
- UnixLinux.Cp: the copy is one transfer of the whole file; the C makes a single `sendfile` call with the file size and does not check a short count (src/rsvc/unix_linux.c:74), and Linux moves at most 0x7ffff000 bytes in one call, so larger files are copied truncated. The model does not bound the transfer.
- ContainerFormats.Registry.Detect: `isDirectory` is a parameter; the C computes it as `st.st_mode & S_IFDIR` (src/rsvc/format.c:69), which is non-zero for block devices and sockets too, since their mode bits include those of S_IFDIR.
- Files.FileSystem: paths are compared as strings without normalisation, so "a/" and "a" are different paths and the empty path can be created as a directory.
- Id3Read.NulTerminated: keeps the message "mussing null terminator" as the code spells it.
- ConvertCommand.BuildPath: the fixed `MAXPATHLEN` buffer of `build_path` is not bounded; the path is built at any length.
- Mad.Scale: the libmad constants are fixed at `MAD_F_FRACBITS` = 28, as libmad defines them.
