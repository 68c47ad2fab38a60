# odotdot in Dafny

This project models the core of the odotdot interpreter, a small, dynamically typed scripting language, and proves properties of that model. The repository holds several generations of the interpreter:

- the C runtime in `src/`;
- the older C prototype in `c-interpreter/`;
- the Python prototypes in `pythoninterp/` and `simplelang/`.

Those files were written against different internal APIs, so each generation is modelled on its own. Shared collaborators are abstract:

- Objects are references into a heap of object records (`Interp`).
- Class tests, method calls, running a block and the default object hash are fields of an environment record (`Interp.Env`). They are not interpreted further.
- Unicode strings are sequences of code points. Bytes are integers in 0..255.
- Every machine-width integer (`size_t`, `unsigned long`, `long`, `int64_t`) is unbounded. Wrap-around is written out wherever the code depends on it.

The model is organised in layers:

- **Codecs:** UTF-8 (`Utf8`, `LegacyUnicode`), character classes (`UnicodeClass`), decimal integers (`Integer`), strings and byte arrays (`StringObject`, `ByteArray`), paths (`Path`).
- **Containers:** the three chained hash tables (`MappingObject`, `HashTable`, `LegacyMapping`, sharing `Chains`), the object multiset (`AllObjects`), the growable arrays (`DynamicArray`, `LegacyDynamicArray`) and the frame stack (`Stack`).
- **Equality:** `Operator` and `Equals`.
- **Front end:** `Tokenizer`, `LegacyTokenizer`, `Parse` with its printer `ParseInverse`, `LegacyAst` and `SimpleAst`.
- **Runtime:**
  - scope chains: `Scope`, `Context`, `PyRun`, `SimpleRun`;
  - the evaluator and statement runner: `RunAst`;
  - functions and partials: `FunctionObject`;
  - argument binding: `Lambda`, `ArrayFunc`;
  - argument checking: `Check`, `CheckOptions`;
  - methods and attributes: `Method`, `Attribute`;
  - built-ins: `Builtins`, `BlockCatch`;
  - the Bool, null, Option and Error objects: `ValueObjects`.

An operation that can fail returns a `Result`. Its error names the exception class and message the code throws. `Aborted` stands for an `assert` that ends the process.

Where the code's comments or tests and the code disagree, the model follows the code:

- simplelang: a second `NullClass()` raises `ValueError`, as `simplelang/objects.py` does. A later test expects `TypeError`.
- `src/run.c`: a tokenizer failure yields no tokens. `run` then parses nothing and reports success.
- `src/builtins.c:181` does not check the trying block's scope, made by `subscope_of_defscope`, for NULL; the handler scope is checked at lines 194-198. The unchecked path is modelled as `Aborted`.
- `src/lambdabuiltin.c:102-105` falls through after a failed allocation. Allocation is total in this model, so this path does not arise.
- `src/objects/block.c`: its `run_statement` helper is modelled by the statement runner of `src/runast.c`.
- `src/objects/null.c`: `nullobject_get` is the environment's known null object.
- `unicode_is0to9` is not part of this model's sources. It is taken to be the ASCII digits `0`..`9`.

## Model

| member | source | states |
|---|---|---|
| Utf8.HowManyBytes | src/utf8.c:26-47 | -1 exactly for surrogates and values above U+10FFFF; otherwise 1..4, the shortest form whose capacity holds the code point (RFC 3629 section 3) |
| Utf8.EncodeChar | src/utf8.c:80-106 | one code point's bytes: HowManyBytes of them, a lead byte of the right pattern, then 10xxxxxx continuation bytes |
| Utf8.EncodeAll | src/utf8.c:80-106 | the forms of all code points in order; the length is the sum of the byte counts |
| Utf8.EncodedLength | src/utf8.c:61-78 | the sum of the byte counts when every code point is valid, else the first invalid code point with all before it valid |
| Utf8.Encode | src/utf8.c:53-108 | the empty string encodes to no bytes; success exactly when every code point is valid, with the summed length; a failure names the first invalid code point |
| Utf8.DecodeOne | src/utf8.c:139-182 | a continuation byte or 0xF8..0xFF as lead byte is an invalid start byte; a decoded sequence spans 1..4 bytes inside the input |
| Utf8.DecodeOneCanonical | src/utf8.c:184-200 | what one step accepts is exactly the encoding of a valid code point: no overlong form, surrogate or value above U+10FFFF gets through (RFC 3629 sections 3 and 10) |
| Utf8.DecodeEncodedChar | src/utf8.c:127-200 | decoding the encoding of a valid code point gives it back, with its byte count, whatever bytes follow |
| Utf8.Decode | src/utf8.c:115-217 | zero bytes decode to the empty string; a result is valid, no longer than the input, and re-encodes to exactly the input |
| Utf8.DecodeEncodeAll | src/utf8.c:53-217 | decode(encode-all(s)) == s for every valid string |
| Utf8.RoundTrip | src/utf8.c:53-217 | encoding a valid string succeeds and decoding gives it back |
| Utf8.DecodeThenEncode | src/utf8.c:53-217 | an accepted input re-encodes to itself: the decoder is the exact inverse of the encoder |
| LegacyUnicode.Copy | src/unicode.c:26-53 | the copy has the source's length and code points; an allocation failure is the only error |
| LegacyUnicode.HowManyBytes | src/unicode.c:70-91 | the same classification as the current codec, rejecting surrogates and values above U+10FFFF |
| LegacyUnicode.EncodedLength | src/unicode.c:97-116 | STATUS_ERROR exactly when some code point is invalid, else the sum of the byte counts |
| LegacyUnicode.Encode | src/unicode.c:97-146 | success exactly when every code point is valid and the buffer is allocated; the bytes have the summed length and decode back to the input |
| LegacyUnicode.Decode | src/unicode.c:153-247 | STATUS_NOMEM on allocation failure whatever the input; otherwise success exactly when the current decoder accepts, and the result re-encodes to the input |
| LegacyUnicode.RoundTrip | src/unicode.c:97-247 | the old codec round-trips every valid string |
| UnicodeClass.SpaceClassIsListed | src/unicode.h:48-58 | unicode_isspace holds for exactly the 29 distinct listed code points |
| UnicodeClass.ClassesNest | src/unicode.h:53-67 | identifier-first chars are identifier chars; later chars add exactly the digits; no whitespace char is an identifier char |
| Integer.AccumulateAsWritten | src/objects/integer.c:25-58 | the loop of integer_from_digits with every product, difference and sum taken modulo 2^64, as the code does it |
| Integer.FromDigits | src/objects/integer.c:25-58 | corrected: success exactly when the magnitude is at most INT64_MAX (2^63 when negative), and then the value is the signed decimal value |
| Integer.AccumulateNoWrap | src/objects/integer.c:35-43 | below place value 10^19 the wrapping loop computes the exact sum and rejects exactly the magnitudes above the bound |
| Integer.AsWrittenAgreesUpTo19Digits | src/objects/integer.c:25-58 | for 1..19 digits the code as written equals the corrected conversion |
| Integer.WrapCounterexample | src/objects/integer.c:35-43 | "10000000000000000000" passes the assert as written and stores 10^19 - 2^64; the corrected conversion rejects it |
| Integer.DecimalValueAppendAll | src/objects/integer.c:25-58 | appending digits shifts the prefix's value by a power of ten |
| Integer.LeadingZero | src/objects/integer.c:25-58 | leading zeros do not change the value |
| Integer.NewFromUstr | src/objects/integer.c:60-77 | success exactly for 1..24 chars, an optional '-' followed by at least one digit, and a magnitude within the bound; the value is the signed decimal value |
| Integer.NewFromUstrAsWritten | src/objects/integer.c:35-77 | integerobject_newfromustr as written: a result only for 1..24 chars holding an optional '-' and then digits; up to 19 digits it agrees with the corrected conversion (`Integer.UstrAsWrittenAgrees`) |
| Integer.UstrAsWrittenAgrees | src/objects/integer.c:35-77 | for literals of at most 19 digits the conversion as written and the corrected one give the same result |
| Integer.UstrWraps | src/objects/integer.c:35-77 | the literal "10000000000000000000" is stored as 10^19 - 2^64 as written, and rejected by the corrected conversion |
| Integer.NewFromCharPtr | src/objects/integer.c:79-96 | the same, except that the 1..24 limit counts only the digits after the '-' |
| Integer.ZeroLiterals | src/objects/integer.c:25-96 | "0" and "-0" give 0 and "-01" gives -1 |
| StringObject.NewInstance | src/objects/string.c:41-45 | `new String` always fails with TypeError |
| StringObject.ToString | src/objects/string.c:54-61 | to_string returns the receiver itself |
| StringObject.Get | src/objects/string.c:100-120 | success exactly for 0 <= i < len, giving the one-char string s[i]; the two ValueError messages for negative and too-large indexes |
| StringObject.Slice | src/objects/string.c:122-163 | the range clamped to the string; the same object exactly when the clamped range is the whole non-empty string, else a fresh s[lo..hi]; the one-argument form ends at len |
| StringObject.SliceBounds | src/objects/string.c:122-163 | a slice is never longer than the string; the full range gives the string; end <= start gives "" |
| StringObject.SplitByWhitespace | src/objects/string.c:165-227 | the loops compute exactly Words(s), the maximal whitespace-free runs in order |
| StringObject.WordsShape | src/objects/string.c:165-227 | no word is empty or holds whitespace, and the words concatenate to the non-whitespace chars in order |
| StringObject.Eq | src/objects/string.c:249-270 | null unless both are Strings; else equal exactly when lengths and all code points match |
| StringObject.EqAgreesWithEqInt | src/objects/string.c:249-270 | on Strings, eq agrees with operator_eqint |
| StringObject.Add | src/objects/string.c:273-303 | null unless both are Strings; else the concatenation, of length len1 + len2 |
| StringObject.AddThenSlice | src/objects/string.c:122-163 | slicing a sum at the left operand's length gives back both operands |
| StringObject.StringHash | src/objects/string.c:312-320 | the djb2 loop over unsigned long, then the cast to signed long |
| StringObject.NewString | src/objects/string.c:323-332 | a String is hashable and its hash is computed from its chars at creation |
| StringObject.EqualStringsHashAlike | src/objects/string.c:312-332 | Strings that compare equal have equal hashes and pick the same bucket |
| ByteArray.FromIntegers | src/objects/bytearray.c:24-77 | success exactly when every element is an Integer in 0..255, with bytes in element order; else the first element that is not such an Integer decides TypeError (not an Integer) or ValueError (out of range), every element before it being fine |
| ByteArray.ValidateIndex | src/objects/bytearray.c:84-95 | accepts exactly 0 <= i < len, with the two ValueError messages |
| ByteArray.Get | src/objects/bytearray.c:97-108 | the byte at a valid index, in 0..255; otherwise validate_index's error |
| ByteArray.Slice | src/objects/bytearray.c:110-150 | always a fresh copy of bytes[lo..hi] with String's clamping; the one-argument form ends at len |
| ByteArray.SliceLikeString | src/objects/bytearray.c:110-150 | the ByteArray slice holds the same elements as the String slice with the same bounds |
| ByteArray.Length | src/objects/bytearray.c:152-157 | the byte count |
| ByteArray.Eq | src/objects/bytearray.c:203-220 | none unless both are ByteArrays; the same object is equal; else equal exactly when the bytes agree |
| ByteArray.EqIsByteEquality | src/objects/bytearray.c:203-220 | eq is byte equality, reflexive, symmetric and transitive |
| ByteArray.NewByteArray | src/objects/bytearray.c:177-198 | a byte array made by bytearrayobject_new is not hashable and holds the given bytes |
| Path.Concat | src/path.c:98-124 | an empty first path gives the second; else path1, one separator unless path1 ends with one, then path2, with length len1 + needslash + len2 |
| Path.ConcatSlashOnce | src/path.c:112-123 | a trailing separator on path1 is reused, never doubled |
| Path.ConcatAbsolute | src/path.c:56-124 | joining onto an absolute path stays absolute |
| Path.ToAbsolute | src/path.c:74-96 | an absolute path is copied unchanged; a relative one is joined to the working directory |
| Path.FindLastSlash | src/path.c:126-144 | 0 for ""; else below len, ignoring trailing separators: the largest index from 1 on holding a separator, or 0 when there is none |
| Path.TrailUnique | src/path.c:126-144 | the trailing-separator boundary the search stops at is unique |
| MappingObject.NewEmpty | src/objects/mapping.c:56-90 | a new Mapping has size 0, ten empty buckets, no items, and is not hashable |
| MappingObject.Length | src/objects/mapping.c:147-152 | the length attribute is the number of items |
| MappingObject.FindIndex | src/objects/mapping.c:203-232 | the chain scan stops at the first stored key operator_eqint calls equal, reports a miss when all compare 0, and an error when a comparison fails first |
| MappingObject.FindAgreesWithGet | src/objects/mapping.c:263-281 | the scan in set and the lookup in get agree on found, absent and failed |
| MappingObject.MakeBigger | src/objects/mapping.c:155-184 | the bucket count triples (saturating at ULONG_MAX) and every item is rehashed to its bucket; the items are unchanged |
| MappingObject.MaybeGrow | src/objects/mapping.c:225-232 | growth happens when 4*size > 3*nbuckets, keeps the items, and leaves every key in its hash bucket |
| MappingObject.Insert | src/objects/mapping.c:225-249 | a new key goes to the head of bucket hash mod nbuckets and the size grows by one; the growth assert fails exactly at ULONG_MAX buckets when overloaded |
| MappingObject.Set | src/objects/mapping.c:186-250 | an unhashable key or a failed comparison is a TypeError and changes nothing; a present key keeps the size and the bucket count |
| MappingObject.SetItems | src/objects/mapping.c:203-249 | a present key keeps its stored key and gets the new value; an absent key is added once and the size grows by one |
| MappingObject.SetThenGet | src/objects/mapping.c:196-281 | after a successful set, get finds the new value |
| MappingObject.GetMethod | src/objects/mapping.c:317-331 | the value when found; KeyError exactly when absent; the hashing TypeError for an unhashable key |
| MappingObject.GetAndDelete | src/objects/mapping.c:283-314 | the lookup result is get's; when found exactly that item is removed and the size drops by one; otherwise nothing changes |
| MappingObject.SetThenDelete | src/objects/mapping.c:196-314 | deleting a key just added removes exactly what set added |
| MappingObject.IterateAll | src/objects/mapping.c:361-398 | the iterator produces every item exactly once, in bucket order |
| MappingObject.IterationCountsSize | src/objects/mapping.c:361-398 | for a well-formed mapping the iterator produces exactly size items |
| MappingObject.LastSetWins | src/objects/mapping.c:107-144 | of several sets of one key, the last value is the one found |
| MappingObject.SetPairsSpec | src/objects/mapping.c:107-144 | the pairs before the first bad element are set in order; a non-Array is a TypeError and a wrong length a ValueError |
| MappingObject.SetupArgs | src/objects/mapping.c:107-144 | no argument leaves the mapping empty; more than one is an ArgError; a non-Array is a TypeError; else the pairs loop |
| MappingObject.Setup | src/objects/mapping.c:107-144 | the options are set after the pairs, in iteration order |
| MappingObject.SetupFromPairs | src/objects/mapping.c:107-144 | with fine pairs and no options the mapping holds what setting the pairs in order gives |
| MappingObject.Eq | src/objects/mapping.c:403-446 | none for non-mappings; otherwise true exactly when the sizes agree and every key of the first maps to an equal value in the second |
| MappingObject.EqAgreesWithEqInt | src/objects/mapping.c:403-446 | the Mapping eq operator and operator_eqint give the same verdict and fail together |
| HashTable.NewIsEmpty | src/hashtable.c:10-24 | a new table has 50 empty buckets, size 0 and no entries |
| HashTable.Find | src/hashtable.c:73-86 | the chain scan stops at the first key comparing 1, reports a miss when all compare 0, and passes back a negative code |
| HashTable.FindFirst | src/hashtable.c:73-86 | the scan's answer is decided by the first comparison that is not 0 |
| HashTable.MakeBigger | src/hashtable.c:27-53 | the bucket count triples (saturating at UINT_MAX); entries are rehashed by their stored keyhash, so entries and size are unchanged |
| HashTable.Prepared | src/hashtable.c:64-71 | the growth step of set keeps entries and size |
| HashTable.Set | src/hashtable.c:56-102 | set keeps the table well formed and passes back only negative comparison codes |
| HashTable.Store | src/hashtable.c:73-101 | an equal key keeps the size and replaces that entry's value in place, every other bucket and entry unchanged; a new key adds exactly one entry and the size grows by one; a comparison error is passed back |
| HashTable.Get | src/hashtable.c:105-119 | found exactly when the scan hits, with that entry's value; not found exactly on a miss; errors are negative |
| HashTable.Pop | src/hashtable.c:122-149 | removes exactly the entry get finds and hands back its value, size one less; not there exactly when get misses; get's error code otherwise |
| HashTable.SetNewKey | src/hashtable.c:88-101 | a key no stored key compares equal to is added: size + 1, entries + that entry |
| HashTable.StoreThenGet | src/hashtable.c:73-119 | after a successful store, get finds the new value |
| HashTable.SetThenGet | src/hashtable.c:56-119 | after a successful set, get finds the new value |
| HashTable.HoldsExactly | src/hashtable.c:105-119 | a table holding exactly pairwise distinct entries finds each one |
| HashTable.SetEach | src/hashtable.c:56-102 | setting pairwise distinct fresh keys adds them all (size grows by their number, nothing overwritten); from an empty table every key is then retrievable |
| HashTable.IterateAll | src/hashtable.c:152-184 | the iterator yields every stored pair exactly once, size pairs in all |
| HashTable.FClear | src/hashtable.c:187-199 | f is called once per pair, in iteration order; afterwards every bucket is empty and the size is 0 |
| HashTable.Clear | src/hashtable.c:201-202 | clear is fclear with a no-op callback: no entries, size 0 |
| LegacyMapping.NewIsEmpty | src/mapping.c:9-23 | a new map has 50 empty buckets and size 0 |
| LegacyMapping.OverflowDetected | src/mapping.c:128-135 | the wrapped product nbuckets*3 is below nbuckets only if the multiplication overflowed |
| LegacyMapping.NewIndex | src/mapping.c:142-164 | an item that moves goes to an index >= the old count, congruent to its old index |
| LegacyMapping.MakeBigger | src/mapping.c:128-168 | corrected growth: STATUS_NOMEM exactly when the product overflows; otherwise the count triples and every entry is kept exactly once in its hash bucket |
| LegacyMapping.Prepared | src/mapping.c:26-42 | the growth step of set keeps entries and size, and fails only when growth is due and cannot happen |
| LegacyMapping.Set | src/mapping.c:26-74 | mapping_set fails for lack of memory exactly when growth is due and the product overflows; otherwise as hashtable_set |
| LegacyMapping.SetNewKey | src/mapping.c:58-73 | a new key is added and the size grows by one |
| LegacyMapping.SetThenGet | src/mapping.c:26-94 | after a successful set, mapping_get finds the new value |
| LegacyMapping.RelinkBucket | src/mapping.c:142-164 | the relinking loop of make_bigger as written, on an explicit heap of nodes |
| LegacyMapping.MakeBiggerAsWritten | src/mapping.c:128-168 | make_bigger as written: the overflow test, the enlarged bucket array, then the relinking loop |
| LegacyMapping.RelinkLosesItem | src/mapping.c:142-164 | growing a 38-item, 50-bucket map as written leaves one item unreachable from every bucket and another heading two buckets |
| Chains.Push | src/allobjects.c:85-88 | an item put at the head of one bucket adds exactly that item; every other bucket is unchanged |
| Chains.Unlink | src/allobjects.c:97-106 | unlinking one item of a chain removes exactly that item; every other bucket is unchanged |
| Chains.Next | src/hashtable.c:159-184 | one iterator call yields the next item in bucket order, or nothing exactly when the last bucket is passed |
| Chains.NextStep | src/hashtable.c:159-184 | what one call yields followed by what remains after it is what remained before it |
| Chains.IterateAll | src/hashtable.c:152-184 | calling the iterator until it reports the end yields every item exactly once, bucket by bucket, each chain from its head |
| AllObjects.SameObject | src/allobjects.c:97 | objects compare equal exactly when they are the same object |
| AllObjects.Init | src/allobjects.c:15-23 | 100 empty buckets and size 0 |
| AllObjects.Doubled | src/allobjects.c:47-48 | the new bucket count doubles, saturating at ULONG_MAX, and always grows |
| AllObjects.MakeBigger | src/allobjects.c:45-68 | growing keeps every object and the size, in a table of twice the buckets |
| AllObjects.Add | src/allobjects.c:70-90 | adding counts one more object, whether or not it was already present, and grows only when the load factor is over 3/4 and the count is not already ULONG_MAX |
| AllObjects.Remove | src/allobjects.c:92-111 | corrected removal: found exactly when the object is stored, then exactly one of its entries goes and the size drops by one; otherwise nothing changes |
| AllObjects.RemoveAsWritten | src/allobjects.c:92-111 | removal as written (bucket index truncated to unsigned int) only reports objects that are stored and changes nothing when it reports a miss |
| AllObjects.AsWrittenAgreesUpTo2To32 | src/allobjects.c:94 | with at most 2^32 buckets the truncated index is the right one |
| AllObjects.RemoveMissesObject | src/allobjects.c:94 | in a table of 100*2^26 buckets an object stored in bucket 2^32 is reported absent by the code as written but found by the corrected removal |
| AllObjects.IterateAll | src/allobjects.c:114-147 | iteration yields each object as many times as it is stored, size objects in all |
| DynamicArray.NewIsEmpty | src/dynamicarray.c:10-21 | no values, room for three |
| DynamicArray.Resize | src/dynamicarray.c:29-37 | a successful resize doubles the room and keeps the values; a failed one leaves the array unchanged |
| DynamicArray.Push | src/dynamicarray.c:39-48 | a push fails exactly when the array is full and the resize fails, leaving the array unchanged; otherwise the value is appended and the room doubles only when it was full |
| DynamicArray.Pop | src/dynamicarray.c:50-55 | the last value comes out and the rest stays |
| DynamicArray.PushThenPop | src/dynamicarray.c:39-55 | a pop undoes a successful push |
| DynamicArray.Lifo | src/dynamicarray.c:39-55 | after pushing xs, k pops give the last k of xs in reverse and leave the array plus the first |xs|-k |
| DynamicArray.CountDown | ctests/test_dynamicarray.c:6-27 | pushing 1..n onto a new array and popping k times gives n, n-1, ..., n-k+1 and leaves n-k values |
| DynamicArray.FreeAll | src/dynamicarray.c:57-62 | the free function is called once per value, in index order |
| LegacyDynamicArray.NewIsEmpty | c-interpreter/dynamicarray.c:10-21 | no values, room for three |
| LegacyDynamicArray.PushAsWritten | c-interpreter/dynamicarray.c:37-47 | the prototype's push fails exactly when the array is full and the realloc fails, and then leaves len one higher with the buffer lost |
| LegacyDynamicArray.AsWrittenSucceedsLikePush | c-interpreter/dynamicarray.c:37-47 | a prototype push that succeeds does what DynamicArray.Push does |
| LegacyDynamicArray.FailedPushCountsMissingValue | c-interpreter/dynamicarray.c:37-47 | the fourth push onto a new array whose realloc fails counts four values with no buffer, where the corrected push keeps the three |
| LegacyDynamicArray.Pop | c-interpreter/dynamicarray.c:49-54 | the last value comes out and the rest stays |
| LegacyDynamicArray.Free2 | c-interpreter/dynamicarray.c:56-62 | the free function is called once per value, last pushed first |
| Stack.Push | src/stack.c:11-36 | a push fails with the recursion error, stack unchanged, exactly when STACK_MAX (1000) frames are present; otherwise one frame goes on top and the rest stays |
| Stack.Pop | src/stack.c:38-45 | the top frame goes and the rest stays |
| Stack.PushThenPop | src/stack.c:11-45 | a pop undoes a successful push |
| Stack.NestedPushes | src/stack.c:11-36 | n nested pushes succeed while there is room for them |
| Stack.RecursionLimit | src/stack.c:11-36 | the 1001st nested frame is refused with the recursion error |
| Operator.ChainFindSpec | src/objects/mapping.c:263-281 | the lookup inside `==` on mappings finds the first stored key comparing equal, is absent exactly when every key compares as different, and fails exactly when a comparison fails first |
| Operator.ArrEqSpec | src/operator.c:62-76 | two arrays of equal length are equal exactly when every pair of elements is; otherwise the answer is that of the first pair that is not |
| Operator.MapEqSpec | src/operator.c:78-104 | two mappings are equal exactly when every key of the first is found in the second with an equal value; -1 only when some lookup or comparison fails |
| Operator.EqIntCases | src/operator.c:44-108 | operator_eqint: the same object is equal; strings and integers compare by contents and never fail; arrays and mappings by their elements; any other pair of kinds is unequal |
| Operator.MapFreeNeverFails | src/operator.c:44-108 | objects with no mappings inside never make `==` fail |
| Operator.NeInt | src/operator.c:110-116 | operator_neint fails exactly when eqint does and otherwise gives the opposite answer |
| Operator.Eq | src/operator.c:118-124 | operator_eq gives NULL exactly on an error and otherwise the boolean of eqint == 1 |
| Operator.Ne | src/operator.c:126-132 | operator_ne gives NULL exactly on an error and otherwise the boolean of eqint == 0 |
| Operator.EqNeComplement | src/operator.c:110-132 | `==` and `!=` fail together and otherwise give opposite answers |
| Operator.EqIntReflexive | src/operator.c:46-47 | every object equals itself |
| Operator.UseOparray | src/operator.c:15-35 | the result of an operator is what one of the functions of its array returned, and never the null object |
| Operator.UseOparraySpec | src/operator.c:15-35 | the first function returning something other than null wins, an error raised first is passed on, and when every function returns null the TypeError naming the operator is raised |
| Equals.Equals | src/equals.c:8-71 | an object always equals itself, and the answer is -1, 0 or 1 |
| Equals.EqualsIsEqInt | src/equals.c:8-71 | equals() and operator_eqint give the same answer on every pair of objects, errors included |
| Tokenizer.RunEnd | src/tokenizer.c:139-156 | a run of characters of one class ends at the first character outside it |
| Tokenizer.LexOne | src/tokenizer.c:107-167 | the token at the start of the text, in the branch order of token_ize: an operator exactly when the first character is one, `var` exactly when it starts the text and no identifier character follows; unknown token exactly when no branch matches; a newline inside a string literal and a missing closing quote exactly in their cases; a token is as long as it can be |
| Tokenizer.CheckInteger | src/tokenizer.c:45-74 | an integer literal is accepted exactly when its digits are a single digit or do not start with 0 |
| Tokenizer.Scan | src/tokenizer.c:87-177 | the tokens found are in order, each with the line it sits on; the text between them is only blanks and comments (coverage), and each token is exactly the piece the lexer takes at its offset, kind and length |
| Tokenizer.Tokenize | src/tokenizer.c:79-188 | corrected token_ize: the tokens cover the whole text starting on line 1, gaps being blanks and comments and each token lexed at its offset, failing exactly when the scan fails |
| Tokenizer.TokenizeAsWritten | src/tokenizer.c:179-180 | token_ize as written dereferences NULL exactly when the text has no token, and otherwise agrees with Tokenize |
| Tokenizer.BlanksOnly | src/tokenizer.c:87-105 | a text of blanks and nothing else has no tokens |
| Tokenizer.BlankFileCrashes | src/tokenizer.c:179-180 | a blank or empty file makes token_ize as written dereference NULL, where the corrected tokenizer gives no tokens |
| Tokenizer.LeadingZeroAccepted | src/tokenizer.c:136-142 | `01` fails check_integer yet still becomes one INT token |
| LegacyTokenizer.CString | c-interpreter/tokenizer.c:99 | the prototype reads its text up to the first NUL |
| LegacyTokenizer.LexOne | c-interpreter/tokenizer.c:114-163 | the prototype's token at the start of the text: identifiers are ASCII letters then letters and digits, `var` is a keyword when no alphanumeric follows, and an unterminated string fails an assert |
| LegacyTokenizer.Record | c-interpreter/tokenizer.c:63-78 | new_token keeps the token's text and its first character |
| LegacyTokenizer.Tokenize | c-interpreter/tokenizer.c:88-179 | the prototype's tokens are the records of a faithful, ordered scan of the C string from line 1 |
| LegacyTokenizer.ClassesAgree | c-interpreter/tokenizer.c:100-160 | on plain ASCII the C character classes agree with the Unicode ones the current tokenizer uses |
| LegacyTokenizer.LexOneAgrees | c-interpreter/tokenizer.c:114-163 | on plain ASCII the prototype reads the same token as the current tokenizer and fails an assert exactly where the current one reports a broken string literal |
| LegacyTokenizer.ScanAgrees | c-interpreter/tokenizer.c:88-179 | on plain ASCII text the prototype finds the same tokens as the current tokenizer and fails exactly when it does |
| Parse.DecodeString | src/parse.c:43-98 | parse_string skips the opening quote and never yields more characters than the token holds between its quotes |
| Parse.Unescape | src/parse.c:64-83 | the escape loop stops at the first unescaped quote and yields fewer characters than it reads |
| Parse.StringRoundTrip | src/parse.c:43-98 | decoding a quoted literal gives back the string that was quoted, for every string |
| Parse.UnescapeEscape | src/parse.c:64-83 | the escape loop undoes escaping, whatever follows the closing quote |
| Parse.QuotesDropped | src/parse.c:43-98 | a literal without quotes, backslashes, newlines or tabs decodes to its text with both quotes dropped |
| Parse.OperatorsOneToOne | src/parse.c:247-275 | the operator spellings and the operators correspond one to one |
| Parse.ScanFindsFirstDecider | src/parse.c:504-536 | the brace scan of parse_block answers exactly when some `;` at depth 1 or closing `}` exists, and its answer is whether the first of them is the `}` |
| Parse.Primary | src/parse.c:593-626 | the switch of parse_expression consumes at least one token, only where an expression comes up, and never yields an attribute node |
| Parse.Attributes | src/parse.c:628-660 | the attribute loop consumes whole `.name` pairs, stops at the first token that is not a dot, and nests one GETATTR per pair |
| Parse.ParseExpression | src/parse.c:593-663 | parse_expression succeeds only where an expression comes up and stops before any further dot |
| Parse.ParseArray | src/parse.c:392-430 | an array node on the line of its `[`, ending with the `]` |
| Parse.ArrayElems | src/parse.c:406-417 | the element loop keeps the elements read so far and stops at the `]` |
| Parse.ParseBlock | src/parse.c:494-590 | `{}` is an empty block; a block whose scan finds `}` first is `return expr;` of its one expression; the node carries the `{` line and ends at the `}` |
| Parse.Statements | src/parse.c:564-579 | the statement loop appends only statements and stops at the `}` |
| Parse.ParseCallExpression | src/parse.c:358-388 | a parenthesized expression is a call or an operator call ending at the `)` |
| Parse.ParseOperatorCall | src/parse.c:229-289 | lhs OP rhs becomes the operator call of that operator on the operator's line |
| Parse.ParseInfixCall | src/parse.c:293-352 | arg1 `func` arg2 is a call of func on arg1 and arg2 with no options, on the first backtick's line |
| Parse.ParseCall | src/parse.c:152-225 | a call keeps its function, carries the line of the token after it and stops where no expression comes up |
| Parse.CallArgs | src/parse.c:173-207 | the argument loop keeps earlier arguments and option names and stops where no expression comes up |
| Parse.ParseVarStatement | src/parse.c:667-717 | `var name = expr` becomes a CREATEVAR of name and the parsed expression on the keyword's line |
| Parse.ParseAssignment | src/parse.c:720-781 | an assignment to a variable or an attribute reads its target back from the statement; any other target is an error |
| Parse.ParseStatement | src/parse.c:783-813 | every statement parsed is a statement node ending at its `;`, and one starting with `var` is a CREATEVAR |
| ParseInverse.IntRoundTrip | src/parse.c:102-119 | every int64 value is read back from its INT token text |
| ParseInverse.ExprRoundTrip | src/parse.c:593-663 | an expression printed into the token list and not followed by a dot is read back exactly, ending right after it |
| ParseInverse.StmtRoundTrip | src/parse.c:783-813 | a statement printed into the token list is read back exactly, ending right after its `;` |
| ParseInverse.BlockRoundTrip | src/parse.c:494-590 | a printed block is read back exactly |
| ParseInverse.CallRoundTrip | src/parse.c:358-388 | a printed call, arguments and options included, is read back exactly |
| ParseInverse.OpCallRoundTrip | src/parse.c:229-289 | a printed operator call is read back exactly |
| ParseInverse.ParseExpressionInverts | src/parse.c:593-663 | parse_expression reads every printed expression back |
| ParseInverse.ParseStatementInverts | src/parse.c:783-813 | parse_statement reads every printed statement back |
| LegacyAst.Copy | src/ast.c:66-223 | a copy keeps the node's line number |
| LegacyAst.CopyIsDeep | src/ast.c:66-223 | astnode_copy copies the whole tree: the copy equals the original, kind, line numbers, strings and children included |
| LegacyAst.ParseString | src/ast.c:250-278 | a string node exactly when a STR token of at least two characters comes next, holding the token without its quotes, escapes kept as written |
| LegacyAst.ToChar | src/ast.c:281-310 | the `(char)` cast keeps the low eight bits, so ASCII digits are unchanged |
| LegacyAst.ParseInt | src/ast.c:281-310 | an INT token becomes an integer node holding its characters as text, one per character |
| LegacyAst.ParseGetVar | src/ast.c:313-336 | an ID token becomes a variable lookup of that name |
| LegacyAst.ParseExpression | src/ast.c:420-476 | parse_expression consumes at least one token |
| LegacyAst.ParseArray | src/ast.c:339-401 | parse_array consumes at least one token and yields an array node |
| LegacyAst.ParseCall | src/ast.c:484-524 | a call keeps its function, has at most 100 arguments and stops where no expression comes up |
| LegacyAst.ParseStatement | src/ast.c:527-547 | every statement is a call ending at its `;` |
| LegacyAst.ExpressionRoundTrip | src/ast.c:420-476 | a printed expression not followed by a dot is read back exactly |
| LegacyAst.ElementsRoundTrip | src/ast.c:339-401 | an array's printed elements are read back in order, up to and including the `]` |
| LegacyAst.CallArgsRoundTrip | src/ast.c:484-524 | up to 100 printed arguments are read back, stopping where no expression comes up |
| LegacyAst.TooManyArguments | src/ast.c:480-511 | more than 100 arguments abort the parse |
| LegacyAst.StatementRoundTrip | src/ast.c:527-547 | a printed call statement with at most 100 arguments is read back, the tokens after its `;` left over |
| LegacyAst.ThreeNames | ctests/test_ast.c:231-244 | `a b c;` is a call of a with the arguments b and c |
| LegacyAst.StatementTooLong | src/ast.c:484-547 | a printed call with more than 100 arguments does not parse |
| SimpleAst.ComingUp | simplelang/ast_tree.py:19-56 | the look-ahead yields the next token without consuming it, and raises EOFError at the end |
| SimpleAst.OpComingUp | simplelang/ast_tree.py:19-56 | whether the next token is a given operator; EOFError at the end |
| SimpleAst.StripQuotes | simplelang/ast_tree.py:64-69 | Python's `value[1:-1]`: the text without its first and last characters, empty when shorter than two |
| SimpleAst.ParseString | simplelang/ast_tree.py:64-69 | a STRING token becomes a string with its quotes stripped; any other token fails the assertion; EOFError at the end |
| SimpleAst.ExpressionComingUp | simplelang/ast_tree.py:71-72 | an expression comes up exactly when a string or an identifier is next |
| SimpleAst.ParseExpression | simplelang/ast_tree.py:74-94 | an expression consumes at least one token; a token that is neither a string nor a name raises the ValueError naming it; EOFError at the end |
| SimpleAst.ParseCall | simplelang/ast_tree.py:98-102 | a call keeps its function and the arguments that follow it |
| SimpleAst.CreateTarget | simplelang/ast_tree.py:104-128 | the target of `var`/`const`: a variable becomes CreateVar, an attribute CreateAttr, a string is a ValueError |
| SimpleAst.ParseVarOrConst | simplelang/ast_tree.py:104-128 | a var or const statement consumes at least one token |
| SimpleAst.ParseAssignment | simplelang/ast_tree.py:132-143 | an assignment to a variable is SetVar of it and to an attribute SetAttr of it; a string target is an error; a missing `=` fails the assertion |
| SimpleAst.ParseStatement | simplelang/ast_tree.py:145-161 | a statement ends with its `;`; EOFError at the end |
| SimpleAst.ParseFile | simplelang/ast_tree.py:163-169 | no tokens, no statements; a file parsed without error yields at least one statement and ends with a `;` |
| SimpleAst.ExpressionRoundTrip | simplelang/ast_tree.py:74-94 | a printed expression is read back, stopping right after its tokens |
| SimpleAst.ArgumentsRoundTrip | simplelang/ast_tree.py:98-102 | printed call arguments are read back up to the `;` |
| SimpleAst.CallRoundTrip | simplelang/ast_tree.py:145-161 | a printed call statement is read back exactly |
| SimpleAst.AssignmentRoundTrip | simplelang/ast_tree.py:132-161 | a printed assignment to a variable or attribute is read back exactly |
| SimpleAst.CreationRoundTrip | simplelang/ast_tree.py:104-161 | a printed `var`/`const` statement is read back exactly |
| SimpleAst.StatementRoundTrip | simplelang/ast_tree.py:145-161 | every printed statement is read back, whatever follows its `;` |
| SimpleAst.FileRoundTrip | simplelang/ast_tree.py:163-169 | every statement of a printed file is yielded, in order, and nothing is raised |
| SimpleAst.VarWithoutValue | simplelang/ast_tree.py:115-120 | `var x;` initializes x to the variable null |
| SimpleAst.ConstWithoutValue | simplelang/ast_tree.py:115-120 | `const x;` raises the ValueError asking for a value |
| SimpleAst.KeywordIsNoTarget | simplelang/ast_tree.py:74-94 | `var var;` raises the ValueError naming the keyword |
| SimpleAst.MissingValue | simplelang/ast_tree.py:74-94 | `const x = ;` raises the ValueError naming `;` |
| Scope.Chain | src/objects/scope.c:54-86 | the scopes a lookup visits: the scope itself, then parents, each older than the one before, ending at the builtin scope |
| Scope.GetVar | src/objects/scope.c:54-86 | a failing lookup raises the "no variable named" error |
| Scope.SetVar | src/objects/scope.c:12-52 | a failing assignment raises the "no variable named" error; a successful one keeps the number of scopes |
| Scope.NewSub | src/objects/scope.c:105-129 | a fresh scope with no local variables under the given parent; existing scopes are unchanged |
| Scope.NewBuiltin | src/objects/scope.c:131-141 | a fresh scope with no local variables and no real parent; existing scopes are unchanged |
| Scope.GetVarIsNearest | src/objects/scope.c:54-86 | get_var succeeds exactly when some scope on the chain defines the name, and then reads the nearest such binding |
| Scope.NearestUnique | src/objects/scope.c:54-86 | the nearest defining scope is unique |
| Scope.SetVarUpdatesNearest | src/objects/scope.c:12-52 | set_var succeeds exactly when get_var would, changes only the nearest definer's binding of the name, creates no binding and keeps every other scope |
| Scope.SetVarKeepsChains | src/objects/scope.c:12-52 | assignment keeps the parent links, so every scope's chain is the same afterwards |
| Scope.SetThenGet | src/objects/scope.c:12-86 | after a successful set_var, get_var from the same scope reads the new value |
| Scope.NewSubSeesParent | src/objects/scope.c:105-129 | a new subscope sees exactly what its parent sees, and creating it changes no existing lookup |
| Scope.OlderLookups | src/objects/scope.c:54-86 | adding scopes changes no lookup from an existing scope |
| Context.CompareUnicodeStrings | src/context.c:14-27 | 1 exactly when the strings are equal, 0 exactly when they differ |
| Context.NewGlobal | src/context.c:30-44 | a fresh context with no parent and no variables |
| Context.NewSub | src/context.c:46-55 | a fresh context with no variables under the given parent |
| Context.SetLocalVar | src/context.c:57-81 | a name is added to the context's own table exactly when it is not already there; nothing else changes |
| Context.SetVarWhereDefinedAlwaysAborts | src/context.c:83-119 | context_setvarwheredefined as written aborts on every call |
| Context.AssignmentAborts | src/context.c:83-119 | `x = 2;` after `var x = 1;` aborts as written, where the corrected function updates x |
| Context.NoVariableMessage | src/context.c:96-111 | the message is "no variable named '" followed by the name and a closing quote |
| Context.SetVarWhereDefined | src/context.c:83-119 | corrected: succeeds exactly when some context on the chain defines the name, replacing only the nearest binding, after which the lookup reads the new value; otherwise the "no variable named" message |
| Context.GetVarNoMallocAgrees | src/context.c:121-132 | the lookup finds a value exactly when a context on the chain defines the name, and it is the nearest binding |
| Context.WalkGetVar | src/context.c:121-132 | the loop over parent links finds the same as the nearest-binding lookup |
| Context.GetVar | src/context.c:134-139 | context_getvar succeeds exactly when the name is defined on the chain and then gives the nearest binding; otherwise its assert fails |
| PyRun.GetVarIn | pythoninterp/run.py:24-31 | get_var gives the nearest binding up the parent chain, and the ValueError "no variable named" exactly when none defines the name |
| PyRun.SetVarWhereDefined | pythoninterp/run.py:15-22 | set_var_where_defined replaces only the nearest binding, after which get_var reads the new value; the same ValueError when none defines the name |
| PyRun.CreateSubcontext | pythoninterp/run.py:34-37 | a fresh context with no variables whose parent is the creator |
| PyRun.Initial | pythoninterp/run.py:52-61 | the builtin context has no parent and holds the builtin bindings; the global context is its empty child, from which a name reads its builtin binding or is the "no variable named" error |
| PyRun.PureEvaluation | pythoninterp/run.py:75-104 | evaluating an expression with no calls or blocks changes nothing and gives the value determined by the context chain and attributes |
| PyRun.WithStack | pythoninterp/run.py:131-134 | an escaping error gets the statement stack only when it has none yet |
| PyRun.StackSetOnce | pythoninterp/run.py:131-134 | an error keeps the stack of the innermost statement it escaped |
| PyRun.Execute | pythoninterp/run.py:106-140 | execute leaves the statement stack as it found it, adds no context beyond new ones, and every escaping error carries a stack |
| PyRun.ErrorStack | pythoninterp/run.py:106-140 | an error escaping a statement carries the statement stack of that moment, the statement on top, unless it already had one |
| PyRun.CreateVarShadows | pythoninterp/run.py:114-117 | `var x = e;` binds in the current context only; an inner binding shadows the outer one without changing it |
| PyRun.CreateVarThenGet | pythoninterp/run.py:114-117 | after `var x = e;` the name reads e's value in that context |
| PyRun.SetVarExecutes | pythoninterp/run.py:119-123 | `x = e;` evaluates e, then assigns where x is defined, failing as that does |
| PyRun.SetVarReachesDefiner | pythoninterp/run.py:119-123 | `x = e;` from inside a block assigns in the nearest context that defines x, visible there afterwards, and fails with "no variable named" when none does |
| SimpleRun.NewNull | simplelang/objects.py:8-16 | NullClass() succeeds only while the module's null does not exist yet |
| SimpleRun.NullIsSingleton | simplelang/objects.py:5-16 | the first NullClass() makes null and every later one raises ValueError |
| SimpleRun.NewString | simplelang/objects.py:19-22 | a String keeps its Python text |
| SimpleRun.CallObject | simplelang/objects.py:25-31 | calling a builtin function runs its Python function on the arguments, passing its error on; any other object has no `call` |
| SimpleRun.Definer | tests/test_objects.py:34-45 | the namespace that answers for a name defines it and is on the way up |
| SimpleRun.DefinerIsFirst | tests/test_objects.py:34-45 | the answering namespace is the first one on the way up that has the name |
| SimpleRun.Get | tests/test_objects.py:6-10 | a missing name raises ValueError |
| SimpleRun.Set | tests/test_objects.py:6-31 | a failing set raises ValueError; a successful one keeps the namespaces well formed |
| SimpleRun.Add | tests/test_objects.py:6-31 | add succeeds exactly when the namespace itself lacks the name, and binds it with its constness; otherwise ValueError |
| SimpleRun.SetThenGet | tests/test_objects.py:23-26 | after a set, get reads the new value and the variable stays assignable |
| SimpleRun.ConstantsCannotBeSet | tests/test_objects.py:14-20 | setting a constant raises and changes nothing |
| SimpleRun.SetSucceeds | tests/test_objects.py:6-31 | set succeeds exactly for a defined variable that is not a constant |
| SimpleRun.AddThenGet | tests/test_objects.py:13-26 | an added variable reads back; it is assignable exactly when not added as a constant, and constant by default |
| SimpleRun.ChildSeesParent | tests/test_objects.py:34-39 | a namespace sees its parent's variables unless it has its own |
| SimpleRun.ParentDoesNotSeeChild | tests/test_objects.py:41-45 | adding to a child leaves every lookup in the parent unchanged |
| SimpleRun.NewContext | simplelang/run.py:12-23 | Context(None) is a child of the builtin context once that exists, and a root before |
| SimpleRun.StartupBuiltins | simplelang/run.py:26-33 | the global context sees `null` and `print` through the builtin context, `add_variable` being taken as the namespace's add |
| SimpleRun.NoneMeansBuiltin | simplelang/run.py:14-16 | a context made with no parent after startup sees what the builtin context sees |
| SimpleRun.Evaluate | simplelang/run.py:35-42 | evaluating changes no namespace and records no call |
| SimpleRun.ExecuteAppend | simplelang/run.py:44-67 | running two statement lists one after the other is running their concatenation, stopping at the first exception |
| SimpleRun.CallFunctionFirst | simplelang/run.py:46-49 | a failing function expression stops the call before any argument |
| SimpleRun.FirstFailingArgument | simplelang/run.py:48 | arguments go left to right; the first failing one's exception is the call's |
| SimpleRun.CallRecordsArguments | simplelang/run.py:46-49 | a successful call records exactly one call of the builtin with the argument values in order |
| SimpleRun.CreateVarAdds | simplelang/run.py:50-53 | `var`/`const` add to the current namespace with their constness, raising when the name is already there |
| SimpleRun.SetVarSets | simplelang/run.py:63-65 | assignment succeeds exactly when set does, and the name then reads the value |
| Interp.Text | src/run.c:159-207 | an ASCII C string literal as a name: the same characters as code points |
| Interp.NewSub | src/objects/scope.c:105-129 | a new scope object with no local variables under the given parent, at a reference not used before; nothing else changes |
| Interp.SetLocal | src/objects/scope.c:12-52 | setting a local variable replaces exactly that name in that scope's table; every other scope and object is unchanged |
| Interp.NewArray | src/runast.c:127-146 | a new Array object holding the given elements, at a reference not used before; nothing else changes |
| Interp.SubscopeOfDefscope | src/builtins.c:35-44 | a new subscope of the block's definition_scope, or the error of reading that attribute |
| Interp.CheckArgs | src/check.c:25-62 | the arguments pass exactly when their count matches and each is an instance of its class; a wrong count is the ArgError, a wrong class the TypeError |
| Interp.CheckType | src/check.c:15-23 | an object passes exactly when it is an instance of the class; otherwise the TypeError |
| Interp.CheckNoOpts | src/check.c:116-127 | with nothing declared, any option is unexpected |
| Interp.CheckOpts | src/check.c:64-86 | options pass exactly when each is declared and an instance of its declared class; the errors are the ArgError for an undeclared one and the TypeError |
| Interp.NoSpecsMeansNoOpts | src/check.h:48 | check_no_opts is check_opts with nothing declared |
| Attribute.Get | src/attribute.c:22-53 | a name is found exactly when the object has an attribute mapping holding it, and then gives its value; an object without attributes and a missing name are distinct errors |
| Attribute.Set | src/attribute.c:56-70 | setting succeeds exactly when the object has an attribute mapping, which then holds the name as well |
| Attribute.SetThenGet | src/attribute.c:22-70 | getting a name after setting it gives the value set; other names are unaffected |
| Method.Add | src/method.c:63-97 | a method is added exactly when both generated names fit their buffers; the getter is named after the method and binds the method's class and C function |
| Method.BindTo | src/method.c:45-61 | the getter takes exactly one instance of the method's class and no options, and binds the method to it |
| Method.Call | src/method.c:100-143 | method_call reads the attribute, requires a Function, and calls it with the arguments and no options, passing on each error |
| Method.ToMaybeDebugString | src/method.c:145-162 | a successful result is a String other than the no-return marker; a method returning nothing is an error of its own; errors of the call pass through |
| Method.ToString | src/method.c:164-167 | to_string's result is always a String |
| Method.ToDebugString | src/method.c:169-172 | to_debug_string's result is always a String |
| Check.CheckType | src/check.c:15-23 | an object passes exactly when it is an instance of the class; otherwise the TypeError |
| Check.ArgCountError | src/check.c:28-32 | the ArgError says "too many" exactly when there are more arguments than expected and "not enough" exactly when fewer |
| Check.CheckArgs | src/check.c:25-40 | the arguments pass exactly when their count matches and each is an instance of its type; the count is checked first |
| Check.ObjectAcceptsAll | src/check.c:25-40 | against a list of Object types only the count matters |
| CheckOptions.CheckAgainst | src/check.c:15-23 | a value passes exactly when the declared class is a class and the value is an instance of it |
| CheckOptions.CheckWithMapping | src/check.c:64-86 | options pass exactly when every one is accepted by the declared types |
| CheckOptions.FirstRejected | src/check.c:64-86 | the first rejected option decides the error: an undeclared name is the unexpected-option ArgError, a wrong class the TypeError |
| CheckOptions.CheckOpts | src/check.c:88-132 | with nothing declared, options pass exactly when there are none; otherwise exactly when each is accepted by the mapping built from the declarations |
| CheckOptions.DeclaredOptionAccepted | src/check.c:100-113 | an option declared by the last declaration of its name, with a value of that class, is accepted |
| FunctionObject.CreateAPartial | src/objects/function.c:49-90 | partialling nothing gives the same function; otherwise a function with the same name and C function whose partialled arguments are the old ones followed by the new |
| FunctionObject.NewPartial | src/objects/function.c:107-110 | partialling one argument appends it to the partialled ones and keeps name and C function |
| FunctionObject.Partial | src/objects/function.c:92-105 | Function.partial needs a function first and partials the remaining arguments; no arguments at all is an error |
| FunctionObject.TheArgs | src/objects/function.c:234-266 | the C function receives the partialled arguments, in order, followed by the call's |
| FunctionObject.VCall | src/objects/function.c:234-266 | calling runs the C function on the partialled arguments followed by the call's |
| FunctionObject.CallPartial | src/objects/function.c:49-90 | calling a partial is calling the original with the partialled arguments in front |
| FunctionObject.PartialOfPartial | src/objects/function.c:49-90 | partialling twice is partialling the concatenation once |
| FunctionObject.UpToNull | src/objects/function.c:207-232 | functionobject_call passes the arguments before the terminating NULL, and only those |
| FunctionObject.Call | src/objects/function.c:207-232 | functionobject_call runs the C function on the partialled arguments followed by the given ones, and aborts for a non-function |
| FunctionObject.NewFunction | src/objects/function.c:179-205 | a new function object with the given name and C function and nothing partialled, at a fresh reference |
| FunctionObject.GetName | src/objects/function.c:113-121 | the name getter takes one function and gives its name |
| FunctionObject.SetName | src/objects/function.c:123-133 | the name setter takes a function and a String and changes only that function's name |
| FunctionObject.SetThenGetName | src/objects/function.c:113-133 | after setting a function's name, getting it gives the new name |
| FunctionObject.Setup | src/objects/function.c:162-166 | Function objects cannot be created with `new` |
| Lambda.CheckIdentifier | src/lambdabuiltin.c:18-33 | a name passes exactly when it is a non-empty identifier |
| Lambda.ParseNames | src/lambdabuiltin.c:164-214 | every argument and option name parsed is an identifier |
| Lambda.ParseUnparse | src/lambdabuiltin.c:164-214 | names written with single spaces, option names with a trailing colon after the argument names, parse back to the same names |
| Lambda.ArgumentAfterOption | src/lambdabuiltin.c:193-198 | an argument name after an option name is refused |
| Lambda.LambdaBuiltin | src/lambdabuiltin.c:216-266 | lambda succeeds exactly for a String and a Block, no options and names that parse, the names coming from parsing the string; otherwise the argument check's error, then the unexpected-option error, then the name parser's error |
| Lambda.LambdaPartials | src/lambdabuiltin.c:245-262 | the runner is partialled with the argument names, the option names and the block, in that order |
| Lambda.CheckOptionNames | src/lambdabuiltin.c:38-61 | options pass exactly when each is one of the option names |
| Lambda.BindAll | src/lambdabuiltin.c:115-118 | binding names in turn binds exactly those names and keeps every other binding |
| Lambda.BindAllLast | src/lambdabuiltin.c:115-118 | the last binding of a name is the one that stays |
| Lambda.Locals | src/lambdabuiltin.c:100-136 | the new scope binds exactly `return`, the argument names and the option names |
| Lambda.OptValuesAsWritten | src/lambdabuiltin.c:121-136 | as written, every option name is bound to null |
| Lambda.OptValues | src/lambdabuiltin.c:121-136 | corrected: each option name gets its passed value, or null when it is not passed |
| Lambda.Prepare | src/lambdabuiltin.c:65-136 | too few or too many arguments are errors of their own; preparation succeeds exactly when the count matches, each option is declared and the block has a definition scope, and then adds one new scope under it holding the locals |
| Lambda.RunPrepared | src/lambdabuiltin.c:138-157 | the block runs in the prepared scope; its error passes on; its result is the `return` variable, and a deleted `return` is an error |
| Lambda.RunnerAsWritten | src/lambdabuiltin.c:65-158 | the runner as written fails, changing nothing, when its preparation fails; otherwise it runs the block in the prepared scope, every option bound to null, and answers its `return` |
| Lambda.Runner | src/lambdabuiltin.c:65-158 | the corrected runner fails, changing nothing, when its preparation fails; otherwise it runs the block in the prepared scope, each option bound to its passed value, and answers its `return` |
| Lambda.LocalsBind | src/lambdabuiltin.c:109-136 | the last binding wins: an option name holds its value, an argument name not redeclared later holds its argument, `return` holds null unless it is one of the names |
| Lambda.RunnerBindings | src/lambdabuiltin.c:109-136 | in the corrected runner's scope each option name holds its passed value or null, each argument its argument |
| Lambda.OptionValueLost | src/lambdabuiltin.c:132 | with one option `x` passed a value v, the block sees x as null as written, where the corrected runner gives it v |
| ArrayFunc.Prepare | src/builtins/arrayfunc.c:14-40 | a new scope under the block's definition scope whose only local is `arguments`, a new Array of the arguments after the block; or the attribute error |
| ArrayFunc.Runner | src/builtins/arrayfunc.c:14-48 | the block's `run` method is called with the prepared scope |
| ArrayFunc.RunnerAsserting | src/arrayfunc.c:13-37 | the older runner aborts when the block has no definition scope |
| ArrayFunc.RunnersAgree | src/arrayfunc.c:13-37 | the two runners agree whenever the block has a definition scope, and differ only in how they fail otherwise |
| ArrayFunc.Builtin | src/builtins/arrayfunc.c:50-63 | array_func takes exactly one Block and gives the runner partialled with it |
| ArrayFunc.CallBindsArguments | src/builtins/arrayfunc.c:14-63 | calling the result runs the runner on the block followed by the call's arguments, so `arguments` holds exactly those, in a new Array |
| Builtins.RunInSubscope | src/builtins.c:35-44 | when the subscope cannot be made its error is returned and nothing changes; otherwise the block runs in that new subscope of its definition scope and a block error is raised on |
| Builtins.If | src/builtins.c:46-85 | `if` takes a Bool and a Block; only the yes object runs the block; otherwise the `else` block runs when given, and nothing when not |
| Builtins.IfOptions | src/builtins.c:46-85 | `if` accepts no option but `else`, holding a Block |
| Builtins.Loop | src/builtins.c:107-133 | each round runs the condition; its error ends the loop; a result other than yes or no is the TypeError; no ends the loop without error |
| Builtins.LoopFuel | src/builtins.c:107-133 | more rounds allowed do not change a loop that has ended |
| Builtins.For | src/builtins.c:89-137 | `for` takes four Blocks and no options; the four share a new subscope of the body's definition scope; init runs once and its error ends the call, then the loop |
| Builtins.ParseErrSpec | src/builtins.c:158-173 | an error spec is a Class, or an Array of exactly a Class and a String naming the variable; other Arrays are the ValueError, other objects the TypeError |
| Builtins.HandlerScope | src/builtins.c:194-210 | the handler runs in a new subscope of the caught block's definition scope, holding the error under the variable name when there is one |
| Builtins.Handle | src/builtins.c:186-214 | an error of another class goes on unchanged; a matching one runs the caught block in the handler scope |
| Builtins.Catch | src/builtins.c:150-215 | `catch` succeeds only with three arguments, no options, a valid error spec and an error class inheriting from Error; a non-Error class cannot be caught; a passing trying block ends the call; a failing one is handled |
| Builtins.Chr | src/builtins.c:282-295 | chr gives the one-character string of an Integer exactly when it lies from 0 to 0x10FFFF, surrogates included; otherwise the ValueError |
| Builtins.SameObject | src/builtins.c:308-313 | same_object takes two objects and gives yes exactly when they are the same object |
| Builtins.SameObjectSymmetric | src/builtins.c:308-313 | same_object is reflexive and symmetric |
| Builtins.New | src/builtins.c:345-399 | `new` succeeds exactly when its first argument is a class, the class makes an object and that object's `setup` is a Function that runs successfully on the other arguments and the options; the result is then that object, and each failing step's error is the result otherwise |
| Builtins.GetAttrdata | src/builtins.c:405-419 | get_attrdata takes one object and gives its attrdata mapping, made empty the first time and the same mapping afterwards |
| Builtins.AttrdataOnce | src/builtins.c:405-419 | a second get_attrdata gives the same mapping and changes nothing |
| BlockCatch.RunBlock | src/builtins/catch.c:12-30 | the block's `run` method runs with a new subscope of its definition scope; the result is dropped and errors pass on |
| BlockCatch.BuiltinCatch | src/builtins/catch.c:32-51 | the older `catch` takes two Blocks; its result is null whenever a block ends without error; a failed argument check passes its error on |
| BlockCatch.TryingErrorNeverEscapes | src/builtins/catch.c:32-51 | once the first block fails, the outcome is the second block's, run in the world the first left |
| ValueObjects.BoolNewInstance | src/objects/bool.c:12-16 | no Bool can be made with `new` |
| ValueObjects.CreateBools | src/objects/bool.c:18-45 | the Bool class, based on Object, and its two distinct instances yes and no, all new |
| ValueObjects.BoolEq | src/objects/bool.c:48-63 | Bool's eq takes two objects; it is null unless both are Bools, and then yes exactly when they are the same Bool |
| ValueObjects.BoolEqTable | src/objects/bool.c:48-63 | Bool's eq on yes and no is the truth table of equality |
| ValueObjects.NullSetup | src/objects/null.c:10-14 | no more null objects can be made |
| ValueObjects.NullToDebugString | src/objects/null.c:16-21 | the null object's debug string is "null" |
| ValueObjects.NullCreate | src/objects/null.c:23-39 | the Null class, based on Object, with its setup and to_debug_string methods, and its one instance |
| ValueObjects.OptionNewInstance | src/objects/option.c:21-36 | an Option takes a class and a value, no options, and holds that value |
| ValueObjects.CreateNone | src/objects/option.c:44-47 | the none Option holds nothing |
| ValueObjects.OptionNew | src/objects/option.c:78-87 | optionobject_new makes an Option holding the value |
| ValueObjects.GetValue | src/objects/option.c:55-68 | get_value gives the held value exactly when there is one; none is an error |
| ValueObjects.OptionRoundTrip | src/objects/option.c:55-87 | the value put into an Option is the one get_value gives back, and none has none |
| ValueObjects.ErrorNewInstance | src/objects/errors.c:40-64 | a new Error of the given class with an empty message and no stack |
| ValueObjects.ErrorSetup | src/objects/errors.c:72-84 | Error's setup takes one String, the new message, and changes nothing else |
| ValueObjects.MessageSetter | src/objects/errors.c:101-112 | the message setter takes an Error and a String and replaces only that error's message |
| ValueObjects.StackGetter | src/objects/errors.c:89-99 | the stack getter gives none before the error is thrown and afterwards a new Option holding the stack |
| ValueObjects.StackSetter | src/objects/errors.c:114-144 | the stack setter takes an Error and an Option: none removes the stack, otherwise the value must be an Array, else the TypeError |
| ValueObjects.StackSetThenGet | src/objects/errors.c:89-144 | setting the stack and getting it back gives an Option holding the same stack |
| ValueObjects.Throw | src/objects/errors.c:271-286 | throwing with an error already pending aborts; a first throw records the current stack, or makes the stack's own error pending when that fails; a rethrown error keeps its stack |
| ValueObjects.RethrowKeepsStack | src/objects/errors.c:271-286 | throwing, catching and throwing again keeps the first stack |
| ValueObjects.ThrowFmt | src/objects/errors.c:288-311 | throwfmt makes a new Error of the named built-in class holding the message and throws it; an unknown class name is an error |
| RunAst.NewBlock | src/objects/block.c:71-84 | a new Block whose definition scope is the given scope and whose statement array holds exactly the given statements, in order; no variable or stack frame changes |
| RunAst.Evaluate | src/runast.c:20-153 | given a Mapping iterator that visits every key once, as every evaluation here requires; statement nodes are no expressions and abort; string and integer literals give their constant object without side effects; a block literal always succeeds, capturing the current scope; an array literal has one element per element expression |
| RunAst.EvaluateGetVar | src/runast.c:25-26 | a variable lookup changes nothing, fails exactly when no scope up the chain defines the name, and otherwise reads the nearest definer's binding |
| RunAst.FirstFailureStops | src/runast.c:33-113 | attribute lookups, calls and operator calls evaluate their first sub-expression first, and its failure is theirs with nothing else evaluated |
| RunAst.EvaluateAll | src/runast.c:59-74 | the argument loop gives one value per argument expression, and nothing for no arguments |
| RunAst.EvaluateOpts | src/runast.c:82-101 | every evaluated option is one of the call's options, and every option the iteration visits gets a value |
| RunAst.CallPassesEveryOption | src/runast.c:82-101 | when the options evaluate, the function receives exactly the options written in the call, none dropped |
| RunAst.CallsNothingKeepsScopes | src/runast.c:20-153 | evaluating an expression that calls no function leaves every variable, every stack frame and the rest of the heap alone |
| RunAst.SetLocal | src/runast.c:169-177 | binding a local variable changes only that name in the current scope's own variables |
| RunAst.Assign | src/objects/scope.c:12-52 | assignment succeeds exactly when some scope up the chain defines the name, and afterwards the lookup reads the new value; otherwise the error is the missing variable and nothing changes |
| RunAst.RunStatement | src/runast.c:155-208 | a node that is no statement aborts; a call statement runs the call and drops its value; a failing value expression of a var or assignment statement is the statement's failure |
| RunAst.CreateVarShadows | src/runast.c:169-177 | a var statement binds the name in the current scope only, shadowing any outer binding; no other scope's variables change |
| RunAst.SetVarDefined | src/objects/scope.c:12-52 | set_var succeeds exactly when get_var would |
| RunAst.SetAttrOrder | src/runast.c:189-204 | an attribute assignment evaluates the object, then the value where the object left off, and each failure stops it; it then succeeds exactly when setting the attribute does |
| RunAst.RunEach | src/objects/block.c:35-38 | the statement loop succeeds only when every element is an AstNode; a first element that is none is the TypeError |
| RunAst.RunEachAppend | src/objects/block.c:35-38 | running two lists of statements one after the other is running their concatenation |
| RunAst.BlockRun | src/objects/block.c:27-46 | a block without statement data is the attribute error; a statement attribute that is not an Array is the TypeError; success means every element was an AstNode |
| RunAst.BlockRunsItsStatements | src/objects/block.c:27-46 | a block made from source runs exactly its own statements, in order, in whatever scope it is given |
| RunAst.BlockSetup | src/objects/block.c:16-25 | Block's setup takes a Block, a Scope and an Array and stores the last two as the block's scope and statements; otherwise nothing changes |
| RunAst.BlockRunMethod | src/objects/block.c:48-54 | Block's run method takes exactly a Block and a Scope, gives null, and succeeds exactly when running the block does |
| RunAst.SetupThenRun | src/objects/block.c:16-54 | after setup, running the block runs the statements of the array given to setup |
| RunAst.ParseAll | src/run.c:46-63 | the parse loop gives only statement nodes, none for no tokens, and otherwise at least one statement and never more statements than tokens |
| RunAst.RunOne | src/run.c:67-79 | each statement runs with one more stack frame naming the file, its line and the scope; a full stack is the recursion error; the frame is gone afterwards |
| RunAst.Execute | src/run.c:67-79 | no statements run successfully; the first statement's failure ends the run; after a successful statement the rest run in the state it left |
| RunAst.ExecuteAppend | src/run.c:67-79 | running two statement lists one after the other is running their concatenation: the second runs exactly when the first succeeds |
| RunAst.Run | src/run.c:34-83 | a tokenizer failure runs nothing and counts as success; a parse failure runs nothing and fails; empty code succeeds |
| RunAst.NewNamesExactly | src/run.c:182-198 | export hands on exactly the local variables the block added, each once |
| RunAst.SetAttrs | src/run.c:182-198 | the names are set on the library in order, and the first failure stops the rest |
| RunAst.Export | src/run.c:159-207 | export takes exactly one Block and no options; success means the block ran without error in its own definition scope and the library received, in order, exactly the local variables the block added there, each once |
| RunAst.LibScope | src/run.c:209-226 | a library runs in a new subscope of the built-in scope whose only variable is `export` |
| RunAst.LibScopeLookups | src/run.c:209-226 | library code sees `export` and every other name exactly as the built-in scope does |
| Objects.HashModulus | src/objects/mapping.c:20-22 | a signed hash is read as an unsigned long before reducing it, so negative hashes wrap by 2^64 and the bucket index is always in range |
| Objects.ClampedRange | src/objects/string.c:141-150 | the range a slice covers: the start clamped up to 0, the end clamped down to the length, and empty when they cross |
| Objects.IntegerFromUstr | src/objects/integer.c:60-77 | an Integer object is made from a literal's text exactly when the digits parse, and it is a hashable Integer |
| Objects.ToInt64OfLiteral | src/objects/integer.c:98-101 | reading an Integer made from a literal back gives the literal's signed decimal value, within the 64-bit range |
| Stack.LastPush | src/stack.c:11-36 | whatever the stack held, pushing one frame more than room is left fails with the recursion error |
| Path.TrailStart | src/path.c:133-135 | the run of trailing separators is skipped back to, never past index 0 |
| Path.FindLastSlashExample | src/path.c:126-144 | for "a/b/c" and "a/b/c/" the search starts at the same character, so a trailing separator does not move the last one |
| PyRun.Evaluate | pythoninterp/run.py:75-104 | evaluation may add contexts but never drops one, keeps them well formed, and leaves the statement stack as it found it |
| PyRun.EvaluateAll | pythoninterp/run.py:75-104 | one value per expression, contexts only added, the stack unchanged |
| PyRun.Run | pythoninterp/run.py:109-129 | the body of execute adds contexts at most and leaves the stack as it found it |
| SimpleRun.NewNamespace | tests/test_objects.py:34-36 | a new empty namespace under the given parent, after all existing ones, keeping them well formed |
| SimpleRun.SameDefiner | tests/test_objects.py:34-45 | which namespace answers for a name depends only on the parents and on which namespaces hold the name |
| SimpleRun.EarlierUnaffected | tests/test_objects.py:41-45 | changing one namespace leaves every lookup from a namespace made before it unchanged |
| SimpleRun.EvaluateAll | simplelang/run.py:48 | evaluating the arguments changes no namespace and records no call, and gives one value per argument |
| SimpleRun.Run | simplelang/run.py:44-67 | a statement keeps the namespaces well formed and does not add or remove any |
| SimpleRun.Execute | simplelang/run.py:44-67 | a statement list keeps the namespaces well formed and does not add or remove any |

## Left out

- Console and file I/O: `print`, `src/objects/file.c`, `src/builtins/print.c`, `read_and_run_file`, `src/import.c`, `path_getcwd`, `errorobject_print`/`print_stack`, every `main` and `__main__` file, and `read_file_to_huge_string`. The model has no I/O.
- The relative branch of `path_toabsolute`: the working directory is a parameter of `Path.ToAbsolute`, not read from the system.
- Reference counting, `src/objectsystem.c` and `src/gc.c`, including destructor and foreachref callbacks. Memory is reclaimed outside the model.
- Most allocation failures: allocation is total. A failed resize is kept as an explicit outcome only where the growable arrays and hash tables promise what happens then.
- `src/atomicincrdecr.h`: the interpreter is single-threaded, so atomic reference counts have nothing to model.
- Floating point: every hash table's load-factor test `size/nbuckets > 0.75` becomes the exact integer test `4*size > 3*nbuckets`.
- Address-derived hashes (`object_hash`, the default object hash) are an uninterpreted function of the environment. So is `classobject_isinstanceof`, whose body is not part of this model.
- Bootstrap and registration glue: `builtins_setup`, `builtins_teardown`, `src/interpreter.c`, `classobject.c`, `array.c`, `stackframe.c`, `library.c`, `arbitraryattribs.c`, `object.c` and `src/builtins/operators.c`. These have no behaviour of their own beyond what the environment record abstracts.
- `stringobject_newfromvfmt` and String `replace`: the first formats through varargs and pointer printing; the second delegates to `unicodestring_replace`, which is not part of this model. Error messages keep their `%U`/`%L`/`%D` format strings unexpanded.
- The Error message getter in `src/objects/errors.c`: it only hands back the stored message attribute.
- `utf8_encode_builtin`/`utf8_decode_builtin` in `src/builtins.c`: their behaviour depends on the char signedness chosen by the preprocessor. They are thin wrappers over the modelled codec.
- `simplelang/tokenizer.py`: it is a wrapper around Python's regular-expression engine. `SimpleAst` parses a token list given to it.
- Test files serve only as evidence of intended behaviour. Where a test targets a later API than the code shown, the code is followed.
- Builtins.Loop, Builtins.For: a `for` loop is modelled for a bounded number of condition evaluations (`fuel`). A loop that never ends yields `None` instead of diverging, and `Builtins.LoopFuel` shows that more fuel never changes a finished loop.
- LegacyMapping.RelinkBucket, LegacyMapping.Walk: following `next` pointers on the explicit heap is bounded by the number of nodes. A cyclic or dangling chain becomes `Broken` (`RelinkBucket`) or stops short (`Walk`).
- LegacyMapping.OverflowDetected: the overflow test of `src/mapping.c` make_bigger (the tripled count, taken modulo 2^64, is below the old count) is shown to fire only on a real overflow. It misses counts from 2^63 up to 2^65/3, which 50 buckets tripled never reach, so that it catches every overflow is not claimed.
- PyRun.Evaluate: the contract states the frame conditions of `evaluate` (contexts are only added and stay well formed, the statement stack is balanced), not the value of every expression kind. What each kind of statement does is stated separately, by `PyRun.PureEvaluation`, `PyRun.CreateVarShadows`, `PyRun.SetVarExecutes` and `PyRun.SetVarReachesDefiner`.
- PyRun.EvaluateAll: the same frame conditions, plus one value per expression.
- PyRun.Run: the frame conditions of `execute`'s statement loop only.
- SimpleRun.Run, SimpleRun.Execute: the contracts state that statements keep the namespaces well formed and neither add nor remove any, not which value each assignment stores; `SimpleRun.CreateVarAdds`, `SimpleRun.SetVarSets` and `SimpleRun.CallRecordsArguments` state that per statement.
- The `Namespace` class of simplelang is not part of this model's sources. Its behaviour is modelled from what `tests/test_objects.py` requires of it.
- Scope objects of `src/objects/scope.c` and contexts of `src/context.c` are indices into a store of frames, each with its own variables and an optional parent index.
- Integer.NewFromUstr: rejects every literal whose magnitude is out of range, which is the corrected conversion of the `src/objects/integer.c:35-43` finding; as written a 20-digit literal such as "10000000000000000000" is stored wrapped (`Integer.NewFromUstrAsWritten`, `Integer.UstrWraps`). Up to 19 digits both agree (`Integer.UstrAsWrittenAgrees`).
- Integer.NewFromCharPtr: uses the same corrected conversion, so it does not promise the wrapped value the code stores for a 20-digit literal.
- Parse.Primary: an integer literal token is converted by the corrected `Integer.NewFromUstr`, so a 20-digit literal that the code stores wrapped makes the parse abort in the model.
- Objects.IntegerFromUstr: built on the corrected `Integer.NewFromUstr`; a 20-digit literal that wraps as written is rejected here.
- Objects.ToInt64OfLiteral: the literal's decimal value is promised only for the corrected conversion; as written a 20-digit literal reads back as its value minus 2^64.
- RunAst.Run: tokenizes with the corrected `Tokenizer.Tokenize`, so code holding only blanks and comments runs nothing and succeeds. As written `token_ize` dereferences NULL on such code (`Tokenizer.BlankFileCrashes`), and the model does not follow that crash into `run`.
- SimpleRun.StartupBuiltins: `add_builtins` calls `context.add_variable`, a method the modelled namespace does not have; it is taken to be the namespace's `add`. As written that call fails with AttributeError.
- SimpleRun.Startup: `simplelang/run.py:20` calls `objects.Namespace`, which `simplelang/objects.py` does not define, so the script as written stops there; the model starts from a working namespace class, as the tests of `tests/test_objects.py` describe.

## Findings

| source | as written | input that shows it | evidently intended | confidence | as-written member | corrected member |
|---|---|---|---|---|---|---|
| src/objects/integer.c:35-43 | `Integer.AccumulateAsWritten`: the bound `ABSMAX - digits[i]*multipleby` is computed in 64-bit unsigned arithmetic; once the term exceeds ABSMAX the difference wraps to a huge value, so the assert cannot fail. `multipleby` itself wraps only from the 21st digit on | "10000000000000000000": the leading digit's term 10^19 fits in 64 bits but exceeds INT64_MAX, so `ABSMAX - 10^19` wraps, the assert passes, and the magnitude 10^19 is stored as the int64 10^19 - 2^64 | a literal whose magnitude exceeds INT64_MAX (2^63 if negative) is rejected, and every accepted literal stores its decimal value | high, not executed | Integer.WrapCounterexample | Integer.FromDigits |
| src/mapping.c:142-164 | `LegacyMapping.MakeBiggerAsWritten`: while relinking, `prev` advances even after an item has been moved out of the bucket, and a moved item keeps its old `next` when its target bucket is empty | 38 keys in 50 buckets, with hashes 50, 200 and 100 chained in bucket 0 (`LegacyMapping.Sample`): after growth to 150 buckets the item with hash 50 is in no bucket and the item with hash 200 heads two | growth keeps every item, each in the bucket of its hash modulo the new count | high, not executed | LegacyMapping.RelinkLosesItem | LegacyMapping.MakeBigger |
| src/allobjects.c:94 | `AllObjects.RemoveAsWritten`: remove truncates the bucket index to `unsigned int`, while add uses the full `size_t` index | a table of 100*2^26 buckets holding an object whose hash is 2^32: add stores it in bucket 2^32, remove looks in bucket 0 and reports it absent | remove looks in the same bucket that add chose | medium (needs more than 2^32 buckets), not executed | AllObjects.RemoveMissesObject | AllObjects.Remove |
| c-interpreter/dynamicarray.c:37-47 | `LegacyDynamicArray.PushAsWritten`: `len` is incremented before the resize, so a failed resize leaves the length counting a value that was never stored | the fourth push onto a new array whose resize fails: the length is 4 and the value array is missing | a failed push leaves length and contents unchanged | high, not executed | LegacyDynamicArray.FailedPushCountsMissingValue | DynamicArray.Push |
| src/tokenizer.c:179-180 | `Tokenizer.TokenizeAsWritten`: after the loop, `curtok->next = NULL` runs even when no token was made and `curtok` is still NULL | an empty file, or one holding only spaces, newlines and comments | no tokens and no error | high, not executed | Tokenizer.BlankFileCrashes | Tokenizer.Tokenize |
| src/lambdabuiltin.c:132 | `Lambda.RunnerAsWritten`: every option name is bound to `null`, ignoring the value passed for it | a lambda with option `x:` called with `x` set to a value v: the block reads null for `x` | each option name is bound to the value passed for it | high, not executed | Lambda.OptionValueLost | Lambda.Runner |
| src/context.c:83-119 | `Context.SetVarWhereDefinedAsWritten`: after finding the context that defines the name, setvarwheredefined calls `context_setlocalvar`, which asserts that the name is not yet defined there | `x = 2;` after `var x = 1;` in the global context aborts | the nearest definition of the name is replaced by the new value | high, not executed | Context.AssignmentAborts | Context.SetVarWhereDefined |
