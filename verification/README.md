# Verified model of Chimbuko's core logic

Chimbuko detects performance anomalies in running HPC applications and keeps them in a provenance database.
This project models the parts of it whose correctness is least obvious from reading one function, and proves
what their documentation and design promise.

- **JSON documents** (`JsonValue`, `JsonOrder`, `JsonPointer`, `JsonPatch`, `JsonPatchLaws`, `JsonPatchCreated`,
  `JsonPatchRfc`, `JsonDiff`, `JsonDiffPlaces`, `JsonPatchDocument`, `JsonMergePatch`): the vendored JSON library's comparison operators, JSON pointers
  as text (RFC 6901), JSON Patch (RFC 6902) with `patch` and `diff`, and JSON Merge Patch (RFC 7396). Patches are modelled
  down to the operation objects and pointer texts of the documents that `diff` writes and `patch` reads.
- **The source instrumenter** (`InstrumentTokens`, `InstrumentReadings`, `InstrumentScan`, `InstrumentSplice`,
  `Instrument`): the one-pass
  token scan that finds function bodies, and the loop that splices timers into lines with running offsets.
- **The provenance database's lifetime protocol** (`ProvdbServer`, `ProvdbRun`): who is connected, when the server
  stops, and when the committer leaves.
- **Timestamp rebasing** (`BpReplay`, `BpReplayCells`): replaying a BP file several times as one run, in 64-bit arithmetic.
- **Accounting and layout** (`RequestLogs`, `DuckdbTable`, `PdbSchema`, `Batches`): request conservation over ranks
  and shards, the in-memory table with its linked schema, and batching by a ceiling computed in double precision.

`Wrappers`, `Widths`, `Doubles`, `Decimal` and `SortedKeys` hold result types, integer widths, finite doubles and
the rounding of integers to them, `std::to_string`/`std::stoi`, and the key order of a `std::map`.

Each loop of the original is a method with its own loop and invariants, proved equal to a function; the laws are
lemmas about those functions. Objects that the original updates in place (the scanner's state, the server's flags,
the replay's bounds, the rank and shard lists, the table) are classes, and the tensor and call list are arrays.

Exceptions are values: `Numbered(id)` is the library's exception with that number, `StdInvalidArgument` and
`StdOutOfRange` are those of `std::stoi`, `StdLengthError` that of `std::vector`. An instrumenter run that ends in an
`IndexError` gives `None`.

## Where the code departs from what is promised

- `source.patch(diff(source, target)) == target` is documented to hold always. Array indices go through `stoi`, so
  it holds exactly when every index at which the two values differ is at most 2147483647, and throws
  `std::out_of_range` otherwise (`JsonPatchDocument.DiffPatchRoundTrip`).
- `replace` operations at pointers of which neither is a prefix of the other need not commute: `stoi` accepts a sign,
  so `/1` and `/+1` denote one element. They commute for all values exactly when neither of the denoted places
  contains the other (`JsonPatchLaws.ReplacementsCommute`, `AliasesDoNotCommute`).
- The operations do not follow RFC 6902 and RFC 6901 everywhere. Array indices may carry a sign, leading blanks or, for
  `add` and `remove`, leading zeros, and must fit an `int`; `add` turns null into an object and creates missing parents
  below the first token; `remove` succeeds without a target below a primitive value; `move` can put a value below its
  own former place when the removal shifts an array; `test` compares integers with floats after rounding, and signed
  with unsigned numbers after wrapping (`JsonPatchRfc.AddsToNull`, `ForeignIndices`, `MovesBelowItself`,
  `TestsAfterRounding`, `TestsAfterWrapping` give inputs). For every document and pointer,
  exactly when an operation agrees with the RFC, in success and in result, is `JsonPatchRfc.AddMeetsRfc`,
  `RemoveMeetsRfc`, `ReplaceMeetsRfc`, `MoveMeetsRfc`, `CopyMeetsRfc` and `TestMeetsRfc`. The RFC's rules are defined
  there independently of the code.
- `<` is a strict order on float-free values exactly as long as unsigned numbers fit a signed 64-bit integer
  (`JsonOrder.OrderReachesExactlyTheSignedRange`). With floats allowed, it is one, and `==` is transitive, exactly as
  long as integers are at most 2^53 in magnitude (`JsonOrder.OrderReachesExactlyTheDoubles`,
  `JsonValue.EqualReachesExactlyTheDoubles`).
- A polling committer can find the server gone, if and only if its hello has not been handled yet
  (`ProvdbRun.StrandsExactlyWhenUnhandled`).
- The replays are shifted by exact multiples of the span if and only if the last timestamp of the last replay fits
  64 bits (`BpReplay.ExactWhenNoOverflow`), and exactly then they follow each other (`BpReplay.InOrderWhenNoOverflow`).
  A file without timestamps still moves the offset (`BpReplay.NoTimestamps`).

## Model

| member | source | states |
|---|---|---|
| Decimal.StoiToString | 3rdparty/nlohmann/detail/json_pointer.hpp:330-342 | `stoi` reads back the decimal text of a number, stopping at the first non-digit, exactly when the number fits an `int`, and throws out_of_range otherwise |
| Decimal.StoiDigits | 3rdparty/nlohmann/detail/json_pointer.hpp:330-342 | any digit text, leading zeros included, is read to its end as its decimal value, or is out of range beyond an `int` |
| Decimal.ExtractToString | app/provdb_commit.cpp:34-36 | stream extraction of an `int` recovers a printed number after at most one blank and leaves the text after it, exactly when the number fits an `int` |
| SortedKeys.Sorted | 3rdparty/nlohmann/json.hpp:7887-7909 | the traversal order of an object: every key once, ascending |
| SortedKeys.StringTrichotomy | 3rdparty/nlohmann/json.hpp:5782-5850 | exactly one of less, greater and equal holds between two strings |
| SortedKeys.StringLessTransitive | 3rdparty/nlohmann/json.hpp:5782-5850 | the lexicographic order of strings is transitive |
| JsonValue.EqualReflexive | 3rdparty/nlohmann/json.hpp:5624-5687 | every NaN-free value equals itself |
| JsonValue.EqualSymmetric | 3rdparty/nlohmann/json.hpp:5624-5687 | equality is symmetric, mixed number kinds and their conversions included |
| JsonValue.EqualIsNotTransitive | 3rdparty/nlohmann/json.hpp:5661-5684 | an input on which equality is not transitive: two different integers that both equal one double |
| JsonValue.EqualReachesExactlyTheDoubles | 3rdparty/nlohmann/json.hpp:5624-5687 | over all nested values, floats included, whose integers are at most a limit in magnitude, `==` is transitive if and only if the limit is at most 2^53 |
| Doubles.DoubleIsExact | 3rdparty/nlohmann/json.hpp:5661-5676 | converting an integer up to 2^53 in magnitude to a double is exact |
| Doubles.DoublesAreExact | 3rdparty/nlohmann/json.hpp:5661-5676 | converting an integer of any size that is itself a double is exact, so rounding never moves a representable value |
| JsonValue.EqualUnlessConfused | 3rdparty/nlohmann/json.hpp:5624-5687 | for all values, numeric equality implies `==`, and `==` is numeric equality if and only if nowhere inside a negative number meets an unsigned one or a float meets an integer that is no double |
| JsonValue.EqualIsNumericUpToDoubles | 3rdparty/nlohmann/json.hpp:5624-5687 | over the same values `==` is equality of exact numeric values, member by member, if and only if the limit is at most 2^53 |
| JsonOrder.Trichotomy | 3rdparty/nlohmann/json.hpp:5782-5850 | `<` is asymmetric and its ties are exactly `==`, over nested float-free values with unsigned numbers within int64, and over nested values with floats and integers within 2^53 |
| JsonOrder.Transitivity | 3rdparty/nlohmann/json.hpp:5782-5850 | on both kinds of values `<=` is transitive, and strictly so when one step is strict |
| JsonOrder.OperatorsAgree | 3rdparty/nlohmann/json.hpp:5893-5988 | on both kinds of values `<=`, `>` and `>=` are the operators of the same total order |
| JsonOrder.EqualTransitive | 3rdparty/nlohmann/json.hpp:5624-5687 | without floats `==` is transitive for all numbers, wrapped unsigned ones included |
| JsonOrder.KindsInOrder | 3rdparty/nlohmann/detail/value_t.hpp:55-75 | between kinds: null, then booleans, numbers, objects, arrays and strings; false before true |
| JsonOrder.OrderReachesExactlyTheSignedRange | 3rdparty/nlohmann/json.hpp:5837-5844 | `<` is asymmetric and `<` and `<=` are transitive on float-free values with unsigned numbers up to a limit if and only if the limit fits int64 |
| JsonOrder.OrderReachesExactlyTheDoubles | 3rdparty/nlohmann/json.hpp:5821-5836 | with floats allowed and integers up to a limit in magnitude, the same holds if and only if the limit is at most 2^53 |
| JsonPointer.Find | 3rdparty/nlohmann/detail/json_pointer.hpp:855-858 | the first occurrence at or after a position, or the end when there is none |
| JsonPointer.ReplaceSubstring | 3rdparty/nlohmann/detail/json_pointer.hpp:851-860 | the find-and-replace loop replaces every occurrence from left to right, never looking into what it inserted |
| JsonPointer.EscapedText | 3rdparty/nlohmann/detail/json_pointer.hpp:862-875 | an escaped token holds no slash and only valid escapes, and unescaping gives the token back |
| JsonPointer.UnescapedText | 3rdparty/nlohmann/detail/json_pointer.hpp:862-875 | the other direction: escaping what a valid slash-free text unescapes to gives the text back |
| JsonPointer.UnescapeInPlace | 3rdparty/nlohmann/detail/json_pointer.hpp:870-875 | the two replacement passes compute the unescaping the round trips are about |
| JsonPointer.CheckTildes | 3rdparty/nlohmann/detail/json_pointer.hpp:814-828 | the loop accepts a token exactly when every tilde in it starts one of the two escapes |
| JsonPointer.Split | 3rdparty/nlohmann/detail/json_pointer.hpp:776-836 | the loop with its two cursors returns the unescaped tokens, or error 107 or 108, as the recursive parse does |
| JsonPointer.RenderRoundTrip | 3rdparty/nlohmann/detail/json_pointer.hpp:53-72 | the documented invariant: a pointer printed with `to_string` parses back to itself, for every list of tokens |
| JsonPointer.ParseRoundTrip | 3rdparty/nlohmann/detail/json_pointer.hpp:776-836 | every accepted pointer text is the printed form of what it parses to, so no two texts denote the same tokens |
| JsonPointer.IndexToken | 3rdparty/nlohmann/detail/json_pointer.hpp:330-342 | a printed index needs no escaping, is never the special or zero-padded form, and reads back exactly when it fits an `int` |
| JsonPatch.GetChecked | 3rdparty/nlohmann/detail/json_pointer.hpp:520-570 | the token loop of checked access finds what the recursive resolution finds, or the same error |
| JsonPatch.EditBelow | 3rdparty/nlohmann/json.hpp:7558-7645 | an edit below a path is the edit of the value there, put back, with the same errors; writing back what is there changes nothing; assigning succeeds exactly where checked access does |
| JsonPatch.EditTwice | 3rdparty/nlohmann/json.hpp:7558-7645 | an assigned value is found at its path, and a second edit there composes with the first |
| JsonPatch.AddWithParent | 3rdparty/nlohmann/json.hpp:7558-7616 | where checked access finds the parent, `add` through unchecked access does what it would do through checked access: nothing is created on the way |
| JsonPatch.RunAppends | 3rdparty/nlohmann/json.hpp:7653-7776 | running two scripts one after the other is running their concatenation, an error in the first one abandoning both |
| JsonPatchLaws.ReplaceIsRemoveThenAdd | 3rdparty/nlohmann/json.hpp:7708-7713 | where a non-root pointer resolves, `replace` succeeds and equals `remove` followed by `add` (section 4.3) |
| JsonPatchLaws.RemoveThenAdd | 3rdparty/nlohmann/json.hpp:7558-7645 | removing and adding back at one place is assigning there, array indices shifted forth and back |
| JsonPatchLaws.MoveOntoItself | 3rdparty/nlohmann/json.hpp:7715-7730 | `move` onto its own location is the identity (section 4.4) |
| JsonPatchLaws.RootIsTheException | 3rdparty/nlohmann/json.hpp:7618-7623 | at a place that resolves, `replace` equals `remove` then `add`, and `move` onto itself is the identity, if and only if the place is not the root, which cannot be removed |
| JsonPatchLaws.AddedIsFound | 3rdparty/nlohmann/json.hpp:7558-7616 | what `add` puts below an existing parent is found at its pointer afterwards, exactly when the last token is one that checked access accepts |
| JsonPatchLaws.CopyThenTest | 3rdparty/nlohmann/json.hpp:7732-7768 | a copy passes a `test` against its source, which leaves the document as the copy made it |
| JsonPatchLaws.MovedIsFound | 3rdparty/nlohmann/json.hpp:7715-7730 | a moved value is found at its target |
| JsonPatchLaws.TestDecides | 3rdparty/nlohmann/json.hpp:7747-7768 | `test` succeeds exactly on an equal value; it ends in its own error 501 exactly on an unequal value or a missing place, while an array index that is padded or that `stoi` throws on raises another error |
| JsonPatchLaws.StuckError | 3rdparty/nlohmann/detail/json_pointer.hpp:514-570 | where checked access fails, the error is that of the first token that does not resolve: 401 to 404, 106, 109 or out_of_range, each for its case |
| JsonPatchLaws.ReplacementsCommute | 3rdparty/nlohmann/json.hpp:7708-7713 | two `replace` operations at pointers that resolve commute for all values if and only if neither denoted place contains the other |
| JsonPatchLaws.ApartCommute | 3rdparty/nlohmann/json.hpp:7708-7713 | at such places both replacements succeed in either order with one result |
| JsonPatchLaws.NestedDoNotCommute | 3rdparty/nlohmann/json.hpp:7708-7713 | at nested or equal places some pair of values does not commute |
| JsonPatchLaws.CanonicalPrefixes | 3rdparty/nlohmann/detail/json_pointer.hpp:520-570 | for pointers whose indices are printed canonically, one is a prefix of the other exactly when one place contains the other |
| JsonPatchLaws.AliasesDoNotCommute | 3rdparty/nlohmann/detail/json_pointer.hpp:330-342 | "/1" and "/+1" are not prefixes of each other, denote one element, and their replacements do not commute |
| JsonPatchLaws.AddWithoutParent | 3rdparty/nlohmann/json.hpp:7567-7577 | where checked access finds no parent, `add` succeeds if and only if the first token resolves and every missing place can be created |
| JsonPatchLaws.UncheckedCreates | 3rdparty/nlohmann/detail/json_pointer.hpp:444-512 | unchecked access past a pointer that does not resolve succeeds exactly when the first missing token is absent rather than invalid and the later ones can stand below null; what it leaves is `JsonPatchCreated.AddCreates` |
| JsonPatchCreated.AddCreates | 3rdparty/nlohmann/json.hpp:7558-7616 | a successful `add` without a parent is one assignment at the last place that was there: its value extended by the first missing token, with what the remaining tokens make below it |
| JsonPatchCreated.ExtendedShape | 3rdparty/nlohmann/detail/json_pointer.hpp:444-512 | an extended object gains exactly one member; an array keeps its elements and has nulls up to the new one; null becomes an array exactly for digits or "-" |
| JsonPatchCreated.CreatedIsFound | 3rdparty/nlohmann/json.hpp:7558-7616 | the added value is found at the places created |
| JsonPatchCreated.CreatedByPointer | 3rdparty/nlohmann/json.hpp:7558-7616 | the pointer itself finds the added value if and only if no token of it but the last, from the first missing one on, is a "-" that stood for the end of an array; with one it finds nothing |
| JsonPatchCreated.OthersKept | 3rdparty/nlohmann/json.hpp:7558-7616 | every pointer that resolved, and does not lead towards the created place, still finds the same value |
| JsonPatchCreated.AddFails | 3rdparty/nlohmann/detail/json_pointer.hpp:444-512 | a failing `add` without a parent raises the error of the first token that stops it: checked access for the first, what cannot be extended for the first missing, a number that cannot be created for the later ones |
| JsonPatchLaws.AddCreatesParents | 3rdparty/nlohmann/json.hpp:7567-7577 | an input on which `add` creates a missing object |
| JsonPatchLaws.ParentErrors | 3rdparty/nlohmann/json.hpp:7558-7645 | the errors of `add` and `remove` at a parent that is found: a primitive, a missing member, an index that cannot be read or lies outside the array |
| JsonPatchLaws.RemoveNeedsTarget | 3rdparty/nlohmann/json.hpp:7618-7645 | `remove` fails as its parent does, and otherwise succeeds if and only if `at` finds the target, or the parent is neither object nor array, or the index is zero-padded and in range |
| JsonPatchLaws.RemoveBelowPrimitive | 3rdparty/nlohmann/json.hpp:7618-7645 | `remove` below a value that is neither object nor array succeeds and changes nothing |
| JsonPatchRfc.AtMeetsRfc | 3rdparty/nlohmann/detail/json_pointer.hpp:520-570 | checked access finds what section 4 of RFC 6901 references; it finds more exactly when an array index is not written in the grammar of the RFC, and less exactly when an index exceeds an `int` |
| JsonPatchRfc.CheckedMeetsRfc | 3rdparty/nlohmann/json.hpp:7618-7645 | for every document, pointer and edit through checked access: same success and same result as the RFC, if and only if the stated cases at the parent and on the way to it do not apply |
| JsonPatchRfc.EditMeetsRfcHere | 3rdparty/nlohmann/json.hpp:7582-7645 | at the parent itself, the code agrees with the RFC, in success and result, exactly unless it adds to null, removes from a primitive, reads an index in range outside the grammar, or refuses one in range beyond an `int` |
| JsonPatchRfc.AddMeetsRfc | 3rdparty/nlohmann/json.hpp:7558-7616 | for every document and pointer, `add` does what section 4.1 of RFC 6902 says if and only if none of the stated cases applies: a null parent, an index that only the code reads, an index the RFC allows that exceeds an `int`, or a missing parent that can be created |
| JsonPatchRfc.RemoveMeetsRfc | 3rdparty/nlohmann/json.hpp:7618-7645 | for every document and every pointer but the root, `remove` does what section 4.2 says if and only if the stated cases do not apply |
| JsonPatchRfc.ReplaceMeetsRfc | 3rdparty/nlohmann/json.hpp:7708-7713 | for every document and pointer, `replace` does what section 4.3 says if and only if checked access follows no index outside the grammar, and the referenced value is not behind an index beyond an `int` |
| JsonPatchRfc.AddSucceeds | 3rdparty/nlohmann/json.hpp:7558-7616 | which documents, pointers and values the code's `add` accepts, and which the RFC's permits |
| JsonPatchRfc.CopyMeetsRfc | 3rdparty/nlohmann/json.hpp:7732-7745 | for every document and pair of pointers, `copy` does what section 4.5 says if and only if the stated cases do not apply |
| JsonPatchRfc.MoveMeetsRfc | 3rdparty/nlohmann/json.hpp:7715-7730 | for every document and pair of pointers but the root onto itself, `move` does what section 4.4 says, its ban on moving a value into itself included, if and only if the stated cases do not apply |
| JsonPatchRfc.TestMeetsRfc | 3rdparty/nlohmann/json.hpp:7747-7768 | for every document, pointer and value, `test` does what section 4.6 says if and only if it neither finds an equal value through an index outside the grammar or by confusing numbers, nor misses a numerically equal one behind an index beyond an `int` |
| JsonPatchRfc.PatchMeetsRfc | 3rdparty/nlohmann/json.hpp:7653-7776 | a patch that does not remove the root follows RFC 6902 after each of its operations, in success and in result, if and only if none of them departs on the document it is applied to |
| JsonPatchRfc.AddsToNull | 3rdparty/nlohmann/json.hpp:7582-7590 | inputs on which `add` makes an object of a null the RFC refuses to add to |
| JsonPatchRfc.ForeignIndices | 3rdparty/nlohmann/detail/json_pointer.hpp:330-342 | "+1" and "01" reference nothing under RFC 6901, and `add` and `remove` accept them |
| JsonPatchRfc.MovesBelowItself | 3rdparty/nlohmann/json.hpp:7715-7730 | an input on which `move` puts a value below its own former place, which section 4.4 forbids: the removal shifts the next element there |
| JsonPatchRfc.TestsAfterRounding | 3rdparty/nlohmann/json.hpp:7747-7768 | an input on which `test` accepts an unequal number after converting it to a double |
| JsonPatchRfc.TestsAfterWrapping | 3rdparty/nlohmann/json.hpp:7747-7768 | an input on which `test` accepts -1 for 2^64 - 1 |
| JsonDiff.PatchedEqualsTarget | 3rdparty/nlohmann/json.hpp:7788-7792 | the source with exactly its differing parts replaced equals the target |
| JsonDiff.StrictBelow | 3rdparty/nlohmann/json.hpp:7845-7849 | frame: a script moved below a path edits the value there as the script alone would, keeps its errors, and touches nothing else |
| JsonDiff.RemoveTailRuns | 3rdparty/nlohmann/json.hpp:7855-7867 | the tail removals, highest index down, leave exactly the elements to keep, or throw when an index exceeds an `int` |
| JsonDiff.AddTailRuns | 3rdparty/nlohmann/json.hpp:7869-7879 | every tail addition lands at the current size and the target's tail ends up appended in order, or an index exceeds an `int` |
| JsonDiff.ItemsRun | 3rdparty/nlohmann/json.hpp:7842-7850 | the scripts for the common elements change exactly those elements, whatever stands beside them |
| JsonDiff.MembersRun | 3rdparty/nlohmann/json.hpp:7886-7906 | the scripts and removals for the source's members leave the patched common members and nothing the target lacks |
| JsonDiff.AddMembersRun | 3rdparty/nlohmann/json.hpp:7908-7921 | the additions supply exactly the members the source lacks |
| JsonDiff.DiffRuns | 3rdparty/nlohmann/json.hpp:7816-7938 | the script of two values takes the first to its patched form if every differing index fits an `int`, and otherwise throws out_of_range; no other error can occur |
| JsonDiffPlaces.DiffLists | 3rdparty/nlohmann/json.hpp:7816-7938 | `diff` writes exactly the operations that are due, each once and in order: a replacement where both values hold something that differs in kind or is an unequal primitive, a removal or addition where one of them holds something below parents of one kind |
| JsonDiffPlaces.OnlyTheScript | 3rdparty/nlohmann/json.hpp:7816-7938 | any list of the due operations in that order is the script |
| JsonDiffPlaces.EqualPlaceUntouched | 3rdparty/nlohmann/json.hpp:7816-7838 | no operation lies at, above or below a place where the two values are equal |
| JsonDiff.DiffEmpty | 3rdparty/nlohmann/json.hpp:7822-7826 | the script is empty exactly when the values are equal |
| JsonDiff.StrictTransfers | 3rdparty/nlohmann/json.hpp:7558-7616 | a script whose `add` goes through checked access does the same through the code's unchecked access, if it succeeds or fails on an oversized index |
| JsonDiff.PatchOfDiff | 3rdparty/nlohmann/json.hpp:7788-7792 | the script takes the source to a value equal to the target exactly when every differing index fits an `int` |
| JsonDiff.PatchOfDiffBelow | 3rdparty/nlohmann/json.hpp:7816-7818 | the script for a path, run on any document holding the source there, rewrites that subtree only |
| JsonPatchDocument.Diff | 3rdparty/nlohmann/json.hpp:7816-7938 | `diff` returns the operation objects of the script, in order, with escaped pointer texts below the given path; which script that is says `JsonDiffPlaces.DiffLists` |
| JsonPatchDocument.DiffArray | 3rdparty/nlohmann/json.hpp:7840-7882 | the array branch with its three loops, removals inserted at one position, writes common scripts, then removals from the highest index down, then additions |
| JsonPatchDocument.DiffObject | 3rdparty/nlohmann/json.hpp:7884-7924 | the object branch with its two passes writes the scripts and removals of the source's members, then the additions |
| JsonPatchDocument.SourceMembers | 3rdparty/nlohmann/json.hpp:7886-7906 | the first pass writes, in key order, the script or the removal of each member of the source |
| JsonPatchDocument.TargetMembers | 3rdparty/nlohmann/json.hpp:7908-7921 | the second pass writes, in key order, the addition of each member that only the target has |
| JsonPatchDocument.Patch | 3rdparty/nlohmann/json.hpp:7520-7780 | the operation loop decodes and applies one operation object after the other to a working copy and stops at the first error |
| JsonPatchDocument.DecodeEncode | 3rdparty/nlohmann/json.hpp:7656-7774 | what is written for an operation below a path is read back as that operation at that path, for all six operations |
| JsonPatchDocument.DecodeAccepts | 3rdparty/nlohmann/json.hpp:7656-7774 | an operation is accepted if and only if it is an object with a known "op", pointers that parse, and the members that operation needs; the errors 104 and 105 otherwise |
| JsonPatchDocument.DecodeMeans | 3rdparty/nlohmann/json.hpp:7656-7774 | what is accepted is the operation named, at the pointers written, with the value given |
| JsonPatchDocument.FurtherMembersIgnored | 3rdparty/nlohmann/json.hpp:7656-7774 | members an operation does not define are ignored |
| JsonPatchDocument.RunEncoded | 3rdparty/nlohmann/json.hpp:7653-7776 | running a written patch is running its script |
| JsonPatchDocument.DiffPatchRoundTrip | 3rdparty/nlohmann/json.hpp:7788-7792 | on documents, `source.patch(diff(source, target))` equals the target exactly when every differing index fits an `int`, and throws out_of_range otherwise; the diff is empty exactly on equal values |
| JsonPatchDocument.DiffPatchBelow | 3rdparty/nlohmann/json.hpp:7816-7818 | `diff` with a path, applied to any document holding the source at that path, replaces that subtree and nothing else |
| JsonPatchDocument.LongArrayThrows | 3rdparty/nlohmann/json.hpp:7788-7792 | an input on which the documented invariant fails: emptying an array of 2^31 + 1 elements throws out_of_range |
| JsonMergePatch.MergePatch | 3rdparty/nlohmann/json.hpp:7991-8015 | the in-place loop, erasing and creating members while it traverses the patch, computes MergePatch of section 2 of RFC 7396 |
| JsonMergePatch.AnyOrder | 3rdparty/nlohmann/json.hpp:7999-8009 | visiting the members of the patch in any order gives the same object, the one defined key by key |
| JsonMergePatch.Idempotent | 3rdparty/nlohmann/json.hpp:7991-8015 | merging a patch twice is merging it once, for every target and patch |
| JsonMergePatch.NoNullsIntroduced | 3rdparty/nlohmann/json.hpp:7991-8015 | an object patch leaves no null member along the object spine of a target that had none |
| JsonMergePatch.UnchangedExactlyWhenAgreeing | 3rdparty/nlohmann/json.hpp:7991-8015 | a merge changes nothing exactly when the target already has every member the patch asks for and none it deletes |
| JsonMergePatch.MergedLeaf | 3rdparty/nlohmann/json.hpp:7991-8015 | what the patch gives at a path of keys, and is no object, is what the result holds there |
| JsonMergePatch.MergedNull | 3rdparty/nlohmann/json.hpp:7991-8015 | what the patch sets to null is gone |
| JsonMergePatch.MergedFrame | 3rdparty/nlohmann/json.hpp:7991-8015 | what the patch does not mention is what it was |
| InstrumentTokens.BodiesAreDefinitions | scripts/instrument_file_cpp.py:160-239 | every body found has matching argument parentheses and matching body braces, and the bodies are disjoint and in source order |
| InstrumentTokens.FirstCloseMatches | scripts/instrument_file_cpp.py:111-123 | up to the first close bracket at the outer depth the depth never falls to the outside, so that bracket is the matching one |
| InstrumentReadings.DepthCounts | scripts/instrument_file_cpp.py:111-123 | a depth is the number of opening brackets less that of closing ones |
| InstrumentReadings.PreprocessorMeans | scripts/instrument_file_cpp.py:126-139 | the preprocessor flag marks exactly the tokens on the logical line of a directive, continued by backslashes |
| InstrumentReadings.TemplateMeans | scripts/instrument_file_cpp.py:141-146 | the template flag marks exactly the tokens between the last `template` and the bracket that returns to its depth |
| InstrumentReadings.ClassMeans | scripts/instrument_file_cpp.py:149-157 | the class flag marks exactly the tokens between the last class or struct keyword, template parameters aside, and the brace that returns to its depth |
| InstrumentReadings.KeywordMeans | scripts/instrument_file_cpp.py:58-70 | the backward search finds exactly a skipped keyword with no closing brace or semicolon after it |
| InstrumentReadings.CandidateMeans | scripts/instrument_file_cpp.py:217-239 | what may start a definition, and what counts as `main`, from the tokens alone |
| InstrumentReadings.ScanReadsAll | scripts/instrument_file_cpp.py:105-239 | every parenthesis that may start a definition starts a reading of the tokens or lies inside an earlier one, and the bodies found are those of the readings, in order |
| InstrumentReadings.ReadingsAreUnique | scripts/instrument_file_cpp.py:105-239 | a file has only one such list of readings |
| InstrumentReadings.DefinitionIsFound | scripts/instrument_file_cpp.py:105-239 | a definition outside all earlier readings is recorded: matching arguments, then a matching body brace before any token that rules it out |
| InstrumentReadings.ScanFailsAtEnd | scripts/instrument_file_cpp.py:105-239 | the IndexError happens only for a class keyword as last token, or arguments that close with the last token |
| InstrumentReadings.EndFailsScan | scripts/instrument_file_cpp.py:105-239 | the other direction: both make the scan fail |
| InstrumentScan.Scanner.TrackDepths | scripts/instrument_file_cpp.py:111-123 | the running depths are the bracket depths of the tokens seen |
| InstrumentScan.Scanner.TrackPreprocessor | scripts/instrument_file_cpp.py:126-139 | the flag and line follow preprocessor statements with their continuations |
| InstrumentScan.Scanner.TrackTemplates | scripts/instrument_file_cpp.py:141-146 | the flag and depth follow template parameter lists |
| InstrumentScan.Scanner.TrackClasses | scripts/instrument_file_cpp.py:149-157 | the flag and depth follow class and struct definitions; a class keyword as last token is the IndexError |
| InstrumentScan.Scanner.SkippedKeyword | scripts/instrument_file_cpp.py:58-70 | the backward loop finds a skipped keyword exactly when one stands between the token and the previous brace or semicolon |
| InstrumentScan.Scanner.InArguments | scripts/instrument_file_cpp.py:160-179 | one round inside arguments keeps the recorded bodies and those still to come equal to all bodies, or the stream ends where looking ahead fails |
| InstrumentScan.Scanner.AfterArguments | scripts/instrument_file_cpp.py:181-207 | one round between arguments and body keeps the same, telling a body from a member initializer and from no definition |
| InstrumentScan.Scanner.InBody | scripts/instrument_file_cpp.py:209-215 | one round inside a body records it at its matching close brace and keeps the same |
| InstrumentScan.Scanner.Outside | scripts/instrument_file_cpp.py:217-239 | one round outside functions opens a candidate and keeps the same; at most one phase flag is ever set |
| InstrumentScan.Scanner.Scan | scripts/instrument_file_cpp.py:105-239 | for every token stream the one-pass loop records exactly the bodies that direct search finds, which by `InstrumentReadings.ScanReadsAll` misses no definition, or ends in the IndexError exactly when the search looks past the end |
| InstrumentSplice.SpliceRound | scripts/instrument_file_cpp.py:246-281 | one round keeps every line woven with its insertions so far, and the offsets equal to the lengths inserted per line |
| InstrumentSplice.Splice | scripts/instrument_file_cpp.py:241-281 | the splice loop leaves every line with its texts woven in at their original columns, however many share a line |
| InstrumentSplice.WeaveAppends | scripts/instrument_file_cpp.py:253-281 | inserting at a column shifted by what is already inserted on the line is weaving in one more text |
| InstrumentSplice.WeavePlaces | scripts/instrument_file_cpp.py:270-281 | in a woven line the j-th text stands right after the original character at its column |
| InstrumentSplice.StripWeave | scripts/instrument_file_cpp.py:270-281 | cutting the inserted texts out of a woven line gives the original text |
| InstrumentSplice.OrderIsNeeded | scripts/instrument_file_cpp.py:253-281 | with two functions of one line in the wrong order the offsets put the second text in the wrong place |
| Instrument.ScanOrderSuffices | scripts/instrument_file_cpp.py:215-255 | the source order of the recorded bodies is the order per line that the splice loop needs |
| Instrument.TimerPlaced | scripts/instrument_file_cpp.py:241-281 | every recorded body gets its timer, with the initializer for a free function called main, immediately after its own opening brace |
| Instrument.InstrumentFile | scripts/instrument_file_cpp.py:105-281 | tokens and lines give the woven lines of all bodies found, or the IndexError of the scan |
| Instrument.OriginalRecovered | scripts/instrument_file_cpp.py:241-281 | deleting the inserted timers gives back every original line |
| ProvdbServer.Admin.OnClientHello | app/provdb_admin.cpp:53-59 | the handler takes the state to its successor under a client's hello |
| ProvdbServer.Admin.OnClientGoodbye | app/provdb_admin.cpp:60-65 | the handler takes the state to its successor under a client's goodbye |
| ProvdbServer.Admin.OnPserverHello | app/provdb_admin.cpp:67-73 | the handler takes the state to its successor under the pserver's hello |
| ProvdbServer.Admin.OnPserverGoodbye | app/provdb_admin.cpp:74-79 | the handler takes the state to its successor under the pserver's goodbye |
| ProvdbServer.Admin.OnCommitterHello | app/provdb_admin.cpp:81-87 | the handler takes the state to its successor under the committer's hello |
| ProvdbServer.Admin.OnCommitterGoodbye | app/provdb_admin.cpp:88-93 | the handler takes the state to its successor under the committer's goodbye |
| ProvdbServer.Admin.OnStop | app/provdb_admin.cpp:108-114 | the handler takes the state to its successor under the stop request |
| ProvdbServer.LiveSummarizes | app/provdb_admin.cpp:44-93 | after any handled RPCs a party counts as connected exactly when its last RPC is a hello |
| ProvdbServer.EverSummarizes | app/provdb_admin.cpp:44-114 | the "has connected" flags and the stop flag are set exactly when such an RPC was ever handled |
| ProvdbServer.ClientEver | app/provdb_admin.cpp:53-59 | the client flag is set exactly when some client's hello was ever handled |
| ProvdbServer.ConnectedHasConnected | app/provdb_admin.cpp:44-93 | in every reachable state each "connected" flag implies its "has connected" flag |
| ProvdbServer.QuietMeansGone | app/provdb_admin.cpp:458-468 | nobody is connected exactly when no party's last handled RPC is a hello |
| ProvdbServer.Admin.ConnectionStatus | app/provdb_admin.cpp:95-104 | the response is the six status fields printed and joined with single blanks |
| ProvdbServer.Admin.CheckShutdown | app/provdb_admin.cpp:458-476 | the check breaks the wait loop exactly when nobody is connected and a stop was requested or, under autoshutdown, a client has connected |
| ProvdbServer.ExtractJoined | app/provdb_commit.cpp:34-36 | extracting the first numbers of a joined text recovers them exactly when each fits an `int`, and fails the stream otherwise |
| ProvdbServer.StatusRoundTrip | app/provdb_commit.cpp:29-36 | printing the six fields and parsing four recovers them for every number of clients that fits an `int` |
| ProvdbServer.StatusShowsAll | app/provdb_admin.cpp:95-104 | all six fields of the status text, each the flag it stands for |
| ProvdbServer.ExitCheck | app/provdb_commit.cpp:27-43 | `exit_check` decides as the four extracted numbers say, or fails its assertion when the text has too few |
| ProvdbServer.ExitDecisionMeans | app/provdb_commit.cpp:40-42 | in every reachable state the committer's decision on the text is: a client has connected, none is connected, and the pserver is not connected |
| ProvdbRun.StepKeeps | app/provdb_admin.cpp:440-479 | every step of server, clients, pserver and committer keeps the protocol's invariant |
| ProvdbRun.RunKeeps | app/provdb_admin.cpp:440-479 | every run keeps the protocol's invariant |
| ProvdbRun.AdminLeavesAnEmptyServer | app/provdb_admin.cpp:458-476 | in every run, when the admin has left its loop the last handled RPC of each rank, the pserver and the committer is a goodbye or there was none, and there was a reason to stop |
| ProvdbRun.CheckStopsExactly | app/provdb_admin.cpp:458-476 | in every run a check stops the server exactly under that condition on the RPC history |
| ProvdbRun.CommitterHasServer | app/provdb_commit.cpp:110-161 | in every run a committer between its handled hello and its handled goodbye has a live server to ask |
| ProvdbRun.StrandsExactlyWhenUnhandled | app/provdb_commit.cpp:110-137 | from every state that satisfies the protocol's invariant, some run strands a polling committer, if and only if its hello has not been handled |
| ProvdbRun.UnhandledHelloStrands | app/provdb_commit.cpp:110-137 | a run from the start in which the server leaves before the committer's hello is handled |
| ProvdbRun.AbandonedStep | app/provdb_commit.cpp:129-156 | once clients have come and gone and the pserver is gone for good, no event but an iteration moves the committer, and only the tenth iteration makes it leave |
| ProvdbRun.CommitterLeaves | app/provdb_commit.cpp:129-156 | from such a state the committer leaves at exactly the next status check, within ten of its iterations, whatever else happens; when it stays is `ProvdbRun.IterationDecides` |
| ProvdbRun.IterationDecides | app/provdb_commit.cpp:129-156 | in every run from the start, an iteration of a polling committer makes it leave if and only if it is a tenth one, a client has connected, and no last RPC of a client or the pserver is a hello; with a server running it polls on otherwise |
| ProvdbRun.AdminLeaves | app/provdb_admin.cpp:465-476 | under autoshutdown the first check after the committer's goodbye stops the server |
| ProvdbRun.AdminLeavesAfterGoodbye | app/provdb_admin.cpp:440-479 | in every run from an abandoned server under autoshutdown, a check after the committer's goodbye, whatever comes in between, means that the server has stopped |
| ProvdbRun.ShutdownCompletes | app/provdb_commit.cpp:129-161 | no circular wait: from every such state the committer's iterations, its goodbye and the admin's check are enabled and end the run |
| BpReplay.Replayer.SpoofRank | app/bpfile_replay.cpp:154-167 | the loop writes the rank into the second column of every row and nothing else |
| BpReplay.Replayer.ShiftTimestamps | app/bpfile_replay.cpp:169-184 | the loop adds the offset to the timestamp column modulo 2^64, changes nothing else, and takes the bounds over the unshifted timestamps |
| BpReplay.Replayer.ReplayVariable | app/bpfile_replay.cpp:148-191 | a variable is written as the function that shifts and spoofs it says, which `BpReplayCells.ReplayedCell` describes cell by cell, with the bounds of its timestamps |
| BpReplay.Replayer.ReplayStep | app/bpfile_replay.cpp:147-192 | a step is written variable by variable, and the bounds cover its timestamps |
| BpReplay.Replayer.ReplayFile | app/bpfile_replay.cpp:112-204 | one replay writes the file step by step, and the bounds cover its timestamps |
| BpReplay.Replayer.Replay | app/bpfile_replay.cpp:99-213 | all replays write the file once each, replay r with the offset accumulated over r spans; a second pass changes no bound |
| BpReplay.DeltaIsMultiple | app/bpfile_replay.cpp:207-209 | the accumulated offset of replay r is r times the span of the timestamps, modulo 2^64 |
| BpReplay.ExactWhenNoOverflow | app/bpfile_replay.cpp:170-209 | every timestamp of every replay is shifted by exactly r spans if and only if the last timestamp of the last replay fits 64 bits |
| BpReplay.ReplaysFollowEachOther | app/bpfile_replay.cpp:207-209 | then every timestamp of a later replay exceeds every timestamp of an earlier one |
| BpReplay.InOrderWhenNoOverflow | app/bpfile_replay.cpp:170-209 | every timestamp of each replay precedes every timestamp of all later ones, if and only if the last timestamp of the last replay fits 64 bits |
| BpReplay.LastInstantOverflows | app/bpfile_replay.cpp:170-209 | an input on which it fails: one event at 2^64 - 1, replayed twice |
| BpReplay.OutputTimestamps | app/bpfile_replay.cpp:104-213 | the timestamps of the output are, replay after replay and in input order, the input timestamps with the offset of their replay |
| BpReplay.OneRun | app/bpfile_replay.cpp:99-213 | without overflow the output reads as one run: each written timestamp is the input's moved by whole spans and precedes all those of later replays |
| BpReplayCells.ReplayedShape | app/bpfile_replay.cpp:95-209 | the output is the steps of the file once per replay, each variable with its name, width and number of rows |
| BpReplayCells.ReplayedCell | app/bpfile_replay.cpp:95-209 | cell by cell: column 7 of communication data and column 5 of counters and events are moved by whole spans modulo 2^64, their column 1 holds the spoofed rank if one is given, and every other cell is unchanged |
| BpReplayCells.SpansMeans | app/bpfile_replay.cpp:95-209 | the span is taken over exactly those timestamp columns |
| BpReplay.NoTimestamps | app/bpfile_replay.cpp:99-101 | without timestamps the crossed initial bounds make the span wrap to 2 |
| RequestLogs.RankData.Append | benchmark_suite/benchmark_provdb/parse_provdb_prd_logs.py:43-61 | one report keeps conservation: up to every report the serviced counts sum to total minus incomplete and the new requests to total |
| RequestLogs.RankData.Parse | benchmark_suite/benchmark_provdb/parse_provdb_prd_logs.py:18-61 | from any log, the lists hold the numbers of the matching lines in order and conserve requests over every prefix |
| RequestLogs.ShardData.Insert | benchmark_suite/benchmark_provdb/parse_provdb_prd_logs.py:82-88 | inserting a rank adds each of its four lists bin by bin and leaves the bins after its last report alone |
| RequestLogs.AssignRanks | benchmark_suite/benchmark_provdb/parse_provdb_prd_logs.py:128-138 | whatever the rank-to-shard map, the shards together hold every rank's numbers exactly once in every bin |
| RequestLogs.CombineShard | benchmark_suite/benchmark_provdb/parse_provdb_prd_logs.py:245-248 | a combined shard holds, bin by bin, the sums over its ranks |
| RequestLogs.CombineShards | benchmark_suite/benchmark_provdb/parse_provdb_prd_logs.py:245-248 | there is one combined object per shard, each with its own sums |
| RequestLogs.BinDeficit | benchmark_suite/benchmark_provdb/parse_provdb_prd_logs.py:296-299 | the loop over the combined objects gives the shortfall of the bin, for any such objects |
| RequestLogs.ShortfallOfLogs | benchmark_suite/benchmark_provdb/parse_provdb_prd_logs.py:296-299 | the shortfall of a bin is the difference of all serviced and all new requests of the bin, over every rank of every shard |
| RequestLogs.AggregateIsIncomplete | benchmark_suite/benchmark_provdb/parse_provdb_prd_logs.py:293-303 | the deficits up to a bin sum to minus the requests still incomplete then, each rank counted with its last report once it has ended |
| RequestLogs.AggregateDeficits | benchmark_suite/benchmark_provdb/parse_provdb_prd_logs.py:293-303 | the aggregate loop gives those numbers for every bin, whatever the rank-to-shard map |
| DuckdbTable.Table.constructor | benchmark_suite/benchmark_duckdb/ddb_wrapper.h:212 | a new table is rectangular and empty |
| DuckdbTable.Table.Reset | benchmark_suite/benchmark_duckdb/ddb_wrapper.h:204-209 | a reset table is rectangular and empty |
| DuckdbTable.Table.AddColumn | benchmark_suite/benchmark_duckdb/ddb_wrapper.h:214-223 | a new column is appended to every row and to the reference row, and names still lead to their positions |
| DuckdbTable.Table.AddColumns | benchmark_suite/benchmark_duckdb/ddb_wrapper.h:295-297 | an empty table gets the columns of a result in order, with their types |
| DuckdbTable.Table.AddRow | benchmark_suite/benchmark_duckdb/ddb_wrapper.h:242-246 | a row of unassigned cells is appended and its index returned |
| DuckdbTable.Table.ResizeRows | benchmark_suite/benchmark_duckdb/ddb_wrapper.h:250-253 | kept rows are unchanged and added rows unassigned, and the table stays rectangular |
| DuckdbTable.Table.Clear | benchmark_suite/benchmark_duckdb/ddb_wrapper.h:339-342 | the rows go and the columns stay |
| DuckdbTable.Table.NameIsPosition | benchmark_suite/benchmark_duckdb/ddb_wrapper.h:255-264 | access by column name is access by column position |
| DuckdbTable.Table.Set | benchmark_suite/benchmark_duckdb/ddb_wrapper.h:255-258 | assigning through a name changes the content of that one cell and keeps its type |
| DuckdbTable.Table.ReadColumn | benchmark_suite/benchmark_duckdb/ddb_wrapper.h:312-315 | one column of a chunk fills that column of the new rows and nothing else |
| DuckdbTable.Table.ReadChunk | benchmark_suite/benchmark_duckdb/ddb_wrapper.h:300-319 | a chunk read column by column appends its rows, cell for cell |
| DuckdbTable.Table.Read | benchmark_suite/benchmark_duckdb/ddb_wrapper.h:293-320 | whatever it held before, the table becomes the row-major concatenation of the chunks under the result's columns |
| DuckdbTable.CellOf | benchmark_suite/benchmark_duckdb/ddb_wrapper.h:299-319 | each cell of each chunk is found in its column, below all rows of the earlier chunks |
| PdbSchema.InsertedStaysLinked | benchmark_suite/benchmark_duckdb/pdb_schema.h:30-35 | inserting an anomaly with all it refers to keeps every event key and call-stack entry id resolvable |
| PdbSchema.EveryReferenceResolves | benchmark_suite/benchmark_duckdb/pdb_schema.h:30-54 | from empty tables every reference resolves after any sequence of inserts |
| PdbSchema.AppendRow | benchmark_suite/benchmark_duckdb/pdb_schema.h:89-105 | adding a row and assigning each cell by name appends exactly those contents in column order |
| PdbSchema.AnomalyByName | benchmark_suite/benchmark_duckdb/pdb_schema.h:213-228 | an insert adds one anomaly row that holds each field in the column named after it |
| PdbSchema.CallStackByName | benchmark_suite/benchmark_duckdb/pdb_schema.h:98-124 | the call stack and event rows of an insert hold each field in the column named after it |
| PdbSchema.CounterByName | benchmark_suite/benchmark_duckdb/pdb_schema.h:141-151 | the same for its counter rows |
| PdbSchema.IoStepByName | benchmark_suite/benchmark_duckdb/pdb_schema.h:173-182 | the same for its step row |
| PdbSchema.ProvDBTables.constructor | benchmark_suite/benchmark_duckdb/pdb_schema.h:11-66 | five separate empty tables with the columns of the schema |
| PdbSchema.ProvDBTables.InsertCallStack | benchmark_suite/benchmark_duckdb/pdb_schema.h:114-124 | for each entry, one call stack row and the event row it names, in order |
| PdbSchema.ProvDBTables.InsertCounters | benchmark_suite/benchmark_duckdb/pdb_schema.h:141-151 | one row per counter, keyed by the anomaly |
| PdbSchema.ProvDBTables.Insert | benchmark_suite/benchmark_duckdb/pdb_schema.h:213-232 | an insert appends the anomaly's rows to the five tables and changes nothing else |
| PdbSchema.ProvDBTables.InsertAll | benchmark_suite/benchmark_duckdb/pdb_schema.h:213-232 | a sequence of inserts is their composition on the five tables |
| Batches.CeilingDivision | benchmark_suite/NAB_outlier_check/main.cpp:76 | the exact ceiling: the least batch size with which the batches hold the list |
| Batches.RoundingIsHarmless | benchmark_suite/NAB_outlier_check/main.cpp:76 | below 2^53 elements the ceiling of the rounded double quotient is the exact ceiling |
| Batches.GenerateBatches | benchmark_suite/NAB_outlier_check/main.cpp:75-97 | labels are reset, batch b holds the positions from b*n up to the next batch, both assertions hold, and the batches in order are the whole list |
| Batches.BatchesCover | benchmark_suite/NAB_outlier_check/main.cpp:86-94 | such batches concatenate to the list and batch b has min(n, max(0, size - b*n)) elements |

## Left out

- JSON text and binary formats, `flatten`, `unflatten`, discarded values, NaN and infinite floats: a float is a finite double given by its exact value.
- In-place references into a JSON value (`operator[]`, `at`) are modelled as functions from the old value to the new one; aliasing of the working copy is not.
- C++ leaves open which side of `result.at(ptr) = get_value(...)` and of the comparison in `test` is evaluated first; the model reports the missing member before the unresolved pointer.
- An index of -1 into an empty array in unchecked access is undefined behaviour in C++; the model gives the length error that other negative indices give. Memory exhaustion when an array grows is not modelled.
- A failed `assert` (a primitive parent of `add`) is the error `AssertionFailed`.
- JsonPatchRfc.RemoveMeetsRfc: leaves out the root, for which RFC 6902 does not say what document remains; the code throws error 405.
- JsonPatchRfc.MoveMeetsRfc: leaves out the root moved onto itself, for the same reason.
- JsonPatchRfc.PatchMeetsRfc: leaves out patches with one of these two operations.
- Characters are compared as Dafny characters, which for UTF-8 bytes is the unsigned order that `std::string` uses.
- The instrumenter's function and class names beyond whether a function is `main`, including a possible IndexError while a qualifying name is collected; the header lines it writes; the tokenizer, whose tokens are taken to be in source order and to index the text.
- RPCs that are handled after the admin has left its loop, a goodbye that overtakes a hello on the network, SIGTERM, commits and timers; the committer's loop and the admin's loop are steps of a transition system, one step an iteration.
- The overflow of the committer's `int` iteration counter.
- ADIOS step statuses, attributes and the other variable types of a BP file.
- Rates, ratios and files computed from the request logs, reading a rank-to-shard map, and the failure of the analysis on empty logs.
- Batches.GenerateBatches: takes lists of fewer than 2^53 elements, more than an address space can hold; the double division enters as any value within half a unit in the last place.
- DuckDB itself: creating, appending to and querying its tables. Cell contents are text, types are tags, and an assignment of the wrong type is not modelled.
- The parameter server, the drivers, the query tools and the simulator: mostly wiring around headers that are not part of this model.
