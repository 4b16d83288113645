# tpafd core, modelled in Dafny

tpafd is a service-discovery daemon. Clients connect to it over a
message protocol. Each client says hello with its client id. It can then
publish services and subscribe to them. A service has a generation
number, a time-to-live and a bag of properties. A subscription has an
LDAP-like filter over those properties. When a client disconnects, its
services become orphans. An orphan disappears when its time-to-live runs
out, unless its owner or another client publishes it again.
`devtools/check-release.py` is the project's release checker. It parses
version tags and finds the release before a given one.

This project models the in-memory core of the daemon and the version
logic of the release checker, and proves properties of that model. One
Dafny module stands for each source file (or for a pure and an
imperative half of one):

- **Generic containers** (`src/util`):
  - `Sbuf`: the string builder.
  - `PList`: the growable array list.
  - `PMap`: the association map.
  - `PQueue`: the ring-buffer queue.

  Each is a class over an `array` with `len`/`capacity` fields. Each is
  proved against the sequence it holds.
- **Property data** (`src/sd/pvalue.c`, `src/sd/props.c`): `PValues` and
  `Properties`. The bag of properties is a class whose two `seq` fields
  stand for the source's parallel arrays of names and values. It is proved
  against its sequence of pairs.
- **Filters** (`src/sd/filter.c`):
  - `Filter`: the filter datatype, its canonical printer and its matching
    semantics.
  - `FilterParse`: the recursive-descent parser as functions on the
    unread suffix, with the print/parse round trip.
  - `FilterImpl`: the printer and escaper that append to an `SBuf`.
  - `FilterInput`: the parser working on a `struct input` object with an
    offset, proved to agree with `FilterParse`.
- **Service-discovery domain** (`src/sd`):
  - `Generation`, `Services`/`ServiceObjects`, `Subs`/`SubObjects`,
    `Conns`/`ConnObjects`: each is a value record with transition
    functions, plus a class whose methods are proved against those
    functions.
  - `Db`: the three id-keyed tables.
  - `Clients`/`ClientSpec`: the client operations as functions on the
    tables. `ClientProps` and `ClientLaws` hold the invariants they keep
    and their error rules. `ClientOps` holds the same operations as
    methods on `Db`.
  - `SdOrphans`: the orphan-timer table of `sd.c`.
  - `ServiceDiscovery`: the `sd` object that dispatches to the clients and
    delivers the notifications.
- **Protocol** (`src/proto`):
  - `ProtoTa`: request validation and the transaction state machine.
  - `ProtoConn`: the handshake, request gating, back-pressure and
    termination rules of a protocol connection.
- **Release checker** (`devtools/check-release.py`): `Release`.
  - `Version` with `__str__`, `__lt__` and `__eq__`.
  - Tag parsing.
  - The release-tag lists.
  - `get_prev_release_tag`.

The error codes of `src/sd/sd_err.h` are constants in `SdErr`. `Wrappers`
holds `Option`. `Decimal` holds the decimal rendering and parsing that
the C code does with `printf`/`strtoll` and the script does with
`"%d"`/`int()`. `Iteration` holds the early-stopping foreach that the
containers share.

The model records what the code does, with one exception: the rows of
"## Findings". For each of them, one member models the code as written,
and a corrected member states the evidently intended behaviour. The
layers above are built on the corrected members:

- the filter matching of `Filter`, `Subs` and `ServiceDiscovery` uses the
  corrected substring offset of the src/sd/filter.c:430 row;
- the parser on an input object uses the corrected `input_expect`;
- `ClientOps` and `ServiceDiscovery` use the corrected publish and purge.

"## Left out" names each member that is affected by this.

Three behaviours of the release checker's version logic are worth
spelling out:

- Versions with and without a patch. `__eq__`
  (devtools/check-release.py:73-83) answers False for a mixed pair, and
  `Release.Eq` does the same. `__lt__` (devtools/check-release.py:62-71)
  raises for a mixed pair with equal major and minor versions, and
  `Release.Lt` gives no answer (`None`) for exactly those pairs.
- The version-string round trip. `get_tag_version` needs three fields, so
  the round trip holds only for versions with a patch
  (`Release.TagVersionRoundTrip`, `Release.PatchlessTagRefused`).
- Previous-release resolution. The loop skips the first release tag (see
  Findings).

## Model

| member | source | states |
|---|---|---|
| Decimal.IntToString | src/sd/filter.c:190-191 | "%" PRId64 renders an integer as a non-empty string of decimal digits with at most a leading minus sign |
| Decimal.NatToString | src/sd/filter.c:190-191 | the decimal rendering of a natural number is non-empty, all digits, and has no leading zero |
| Decimal.NatToStringValue | src/sd/filter.c:190-191 | reading the digits of the rendering back gives the number itself |
| Decimal.Clamp64 | src/sd/filter.c:799 | strtoll saturates: the result is an int64; in-range values are kept, larger ones become INT64_MAX, smaller ones INT64_MIN |
| Decimal.StrToInt64 | src/sd/filter.c:798-802 | strtoll with the end-of-string check accepts only an optional sign followed by digits to the end, and yields an int64 |
| Decimal.StrToInt64RoundTrip | src/sd/filter.c:799 | strtoll reads back every int64 that "%" PRId64 rendered |
| Decimal.PyIntRoundTrip | devtools/check-release.py:150-152 | int() reads back every integer that "%d" rendered, with no bound on its size |
| Decimal.PyInt | devtools/check-release.py:150-152 | Python's int() on the fields of a tag; Decimal.PyIntRoundTrip states that it reads a printed integer back |
| Iteration.CallsMade | src/sd/props.c:166-173 | an early-stopping foreach makes at most one call per element; every call but the last returned true; if it stopped early, the last call returned false; a non-empty sequence gets at least one call |
| Iteration.CallsMadeAll | src/sd/props.c:166-173 | when no call before the last returns false, the foreach visits every element |
| Sbuf.SBuf.constructor | src/util/sbuf.c:19-22 | a new builder is empty and has no storage |
| Sbuf.SBuf.AssureCapacity | src/util/sbuf.c:26-32 | the contents are unchanged; a capacity below the request becomes twice the request, otherwise it is kept |
| Sbuf.SBuf.Append | src/util/sbuf.c:54-70 | the contents become the old contents followed by the appended string |
| Sbuf.SBuf.AppendChar | src/util/sbuf.c:72-75 | the contents become the old contents followed by exactly that character |
| Sbuf.SBuf.Morph | src/util/sbuf.c:34-44 | returns the contents, and the buffer holds them followed by a NUL |
| PQueue.Queue.constructor | src/util/pqueue.c:38-41 | a new queue is empty with capacity 0 |
| PQueue.Queue.AssureCapacity | src/util/pqueue.c:16-36 | the logical contents and their order are kept; a capacity below the minimum becomes twice the minimum |
| PQueue.Queue.CopyInto | src/util/pqueue.c:25-28 | the copy loop writes the queue's logical elements, oldest first and unwrapped from the ring, to the start of the new array |
| PQueue.Queue.Push | src/util/pqueue.c:51-60 | the element joins the back of the queue; the capacity doubles from len + 1 when the queue was full |
| PQueue.Queue.Pop | src/util/pqueue.c:72-86 | an empty queue gives None and is unchanged; otherwise the front element is removed and returned, and a queue left empty with capacity above 128 releases its storage |
| PQueue.Queue.ConsiderCompacting | src/util/pqueue.c:62-70 | the contents are kept; an empty queue with capacity above MAX_SPARE_CAPACITY drops to capacity 0 |
| PQueue.Queue.Peek | src/util/pqueue.c:88-94 | returns the element the next pop would return, or None when empty, and changes nothing |
| PQueue.Queue.Len | src/util/pqueue.c:96-99 | the number of queued elements |
| PList.List.constructor | src/util/plist.c:19-22 | a new list is empty with capacity 0 |
| PList.List.Clone | src/util/plist.c:24-37 | a fresh list with the same elements in the same order, sized exactly to them |
| PList.List.CloneDeep | src/util/plist.c:39-49 | a fresh list whose i-th element is the clone of the i-th element |
| PList.List.AssureCapacity | src/util/plist.c:106-113 | the elements are kept; a capacity below the request becomes twice the request |
| PList.List.Append | src/util/plist.c:115-124 | the element is added at the end; the capacity grows to twice len + 1 when the list was full |
| PList.List.Get | src/util/plist.c:141-146 | returns the element at the index |
| PList.List.Del | src/util/plist.c:148-159 | removes the element at the index and shifts the later ones down, keeping their order and the capacity |
| PList.List.Clear | src/util/plist.c:177-185 | the list becomes empty; a non-empty list releases its storage |
| PList.List.Len | src/util/plist.c:201-204 | the number of elements |
| PList.List.IndexOf | src/util/plist.c:214-224 | the index of the first equal element, or -1 exactly when no element is equal |
| PList.List.Has | src/util/plist.c:206-212 | true exactly when some element is equal |
| PList.List.Foreach | src/util/plist.c:226-236 | calls the callback on the elements in order and stops after the first call that returns false |
| PMap.Lookup | src/util/pmap.c:129-139 | a key is found exactly when an entry has it, and the value found belongs to such an entry |
| PMap.KeyIndex | src/util/pmap.c:111-118 | index_of: the position of the first entry with the key |
| PMap.LookupAfterAdd | src/util/pmap.c:92-102 | after adding a new key, that key maps to the added value and every other key keeps its value |
| PMap.LookupAfterDel | src/util/pmap.c:141-147 | after deleting a key, it is absent and every other key keeps its value |
| PMap.LookupSkip | src/util/pmap.c:141-147 | removing an entry with another key does not change a lookup |
| PMap.LookupFirst | src/util/pmap.c:111-118 | the lookup of a key finds the value of its first entry |
| PMap.Map.constructor | src/util/pmap.c:51-60 | a new map has no entries |
| PMap.Map.Add | src/util/pmap.c:92-102 | an absent key is added as a new entry at the end |
| PMap.Map.HasKey | src/util/pmap.c:120-127 | true exactly when an entry has the key |
| PMap.Map.Get | src/util/pmap.c:129-139 | the value of the key, or None when absent |
| PMap.Map.Del | src/util/pmap.c:141-147 | removes the entry with the key and keeps the order of the others |
| PMap.Map.Clear | src/util/pmap.c:159-162 | the map becomes empty |
| PMap.Map.Size | src/util/pmap.c:175-178 | the number of entries |
| PMap.Map.Foreach | src/util/pmap.c:193-202 | calls the callback on the entries in order and stops after the first call that returns false |
| PValues.KindsPartition | src/sd/pvalue.c:27-35 | a value is exactly one of int64 and string |
| PValues.Equal | src/sd/pvalue.c:76-89 | pvalue_equal holds exactly when the two values are the same: the same kind and the same payload |
| PValues.Clone | src/sd/pvalue.c:91-110 | a clone is equal to the original and of the same kind |
| Properties.ValuesOf | src/sd/props.c:119-131 | the values under a name, in insertion order, are at most as many as the pairs |
| Properties.FirstIndex | src/sd/props.c:133-141 | the position of the first pair with the name: it has the name and no earlier pair does |
| Properties.ValuesOfCount | src/sd/props.c:133-141 | a name has values exactly when a pair has it, and its first value is the value of its first pair |
| Properties.ValuesOfAppend | src/sd/props.c:28-42 | the values under a name of two bags placed one after the other are those of the first followed by those of the second |
| Properties.ValuesOfSound | src/sd/props.c:119-131 | a value is stored under a name exactly when that (name, value) pair is in the bag |
| Properties.DelFirstEffect | src/sd/props.c:143-164 | props_del_one removes exactly one pair, the first with the name: that name loses its first value, other names keep all theirs, and the multiset of pairs loses that one pair |
| Properties.NoneBefore | src/sd/props.c:133-141 | a bag without the name has no values under it |
| Properties.EqualAsWrittenNotSymmetric | src/sd/props.c:73-83 | props_equal as written accepts (a, b) and rejects (b, a) when a holds a duplicated pair, though the two bags are different |
| Properties.SamePropsSound | src/sd/props.c:73-83 | equal multisets of pairs pass the written check in both directions, and the relation is symmetric |
| Properties.CountsDecideSameProps | src/sd/props.c:73-83 | equal lengths, and each pair of the first bag occurring equally often in both, mean the same multiset of pairs |
| Properties.NamesSnoc | src/sd/props.c:90-106 | adding a pair adds its name to the set of names |
| Properties.Props.constructor | src/sd/props.c:21-26 | props_create: a bag with no pairs |
| Properties.Props.Pairs | src/sd/props.c:28-42 | the pairs are the names and values of the two parallel sequences (the source's arrays), index by index |
| Properties.Props.Add | src/sd/props.c:28-60 | one pair, holding a clone of the value, is appended at the end; nothing else changes |
| Properties.Props.NumValues | src/sd/props.c:85-88 | the number of pairs |
| Properties.Props.HasPair | src/sd/props.c:62-71 | true exactly when the bag holds that (name, value) pair |
| Properties.Props.Equal | src/sd/props.c:73-83 | props_equal as written: equal lengths, and every pair of this bag occurs somewhere in the other |
| Properties.Props.CountPair | src/sd/props.c:62-71 | how many times the bag holds the (name, value) pair |
| Properties.Props.EqualCorrected | src/sd/props.c:73-83 | props_equal as intended: true exactly when the two bags hold the same multiset of pairs |
| Properties.Props.CountNames | src/sd/props.c:90-106 | props_num_names: the number of distinct names |
| Properties.Props.Clone | src/sd/props.c:108-117 | a fresh bag with equal pairs in the same order |
| Properties.Props.Get | src/sd/props.c:119-131 | returns how many values the name has, and writes the first of them, in order, up to the caller's capacity |
| Properties.Props.GetOne | src/sd/props.c:133-141 | the first value stored under the name, or None exactly when the name is absent |
| Properties.Props.Has | src/sd/props.c:175-182 | true exactly when some pair has the name |
| Properties.Props.DelOne | src/sd/props.c:143-164 | removes the first pair with the name and keeps the order of the rest (the source aborts when there is none) |
| Properties.Props.Foreach | src/sd/props.c:166-173 | calls the callback on the pairs in order and stops after the first call that returns false |
| Properties.HasName | src/sd/props.c:175-182 | props_has: some pair carries the name; Properties.Props.Has is proved to answer it |
| Properties.NumNames | src/sd/props.c:90-106 | props_num_names: the number of distinct names; Properties.Props.CountNames is the loop proved to compute it |
| Properties.EqualAsWritten | src/sd/props.c:73-83 | props_equal as written: equal counts and every pair of the first in the second; Properties.EqualAsWrittenNotSymmetric shows it is not symmetric |
| Properties.SameProps | src/sd/props.c:73-83 | what props_equal is meant to decide, the same pairs counted with multiplicity; Properties.SamePropsSound and Properties.Props.EqualCorrected relate it to the code |
| Filter.Escape | src/sd/filter.c:1074-1089 | filter_escape keeps every character and puts a backslash before each special one; the output is never shorter |
| Filter.EscapePlain | src/sd/filter.c:1074-1089 | a string with no special character is its own escape |
| Filter.EscapeDecimal | src/sd/filter.c:243-252 | the decimal rendering of an integer needs no escaping |
| Filter.ScanExists | src/sd/filter.c:211-223 | a props_foreach search that stops at the first hit finds one exactly when some pair is a hit |
| Filter.Find | src/sd/filter.c:425 | strstr: a position found is one where the needle occurs |
| Filter.FindLeftmost | src/sd/filter.c:425 | strstr finds an occurrence whenever there is one, and the one it finds is the leftmost |
| Filter.FitsFromMonotone | src/sd/filter.c:420-432 | a substring pattern that fits from some offset also fits from any earlier offset |
| Filter.FindFrom | src/sd/filter.c:425 | searching from an offset finds the first occurrence at or after that offset |
| Filter.MatchImpliesFits | src/sd/filter.c:420-446 | when the greedy intermediate search succeeds, the pattern fits the value |
| Filter.FitsImpliesMatch | src/sd/filter.c:420-446 | when the pattern fits the value, the greedy intermediate search succeeds |
| Filter.IntermediatesMatchSpec | src/sd/filter.c:420-446 | the greedy leftmost search for the intermediate parts, followed by the final part, succeeds exactly when the value contains them in order |
| Filter.SubstringMatchesSpec | src/sd/filter.c:391-452 | a substring filter, with the offset advanced past each match, accepts a value exactly when the value starts with the initial part, contains each intermediate part in order without overlap, and ends with the final part |
| Filter.SubstringOffsetCounterexample | src/sd/filter.c:430 | with the offset as written, (k=*a*b*) accepts "ba", which the intended semantics rejects |
| Filter.SubstringFilterCounterexample | src/sd/filter.c:391-466 | filter_matches with the corrected offset rejects (k=*a*b*) on the properties k="ba", which the pair test as written accepts |
| Filter.AllMatchForall | src/sd/filter.c:610-622 | and_matches: all operands match exactly when each operand matches |
| Filter.AnyMatchesExists | src/sd/filter.c:624-636 | or_matches: some operand matches exactly when one of them does |
| Filter.BooleanSemantics | src/sd/filter.c:547-636 | ! negates its operand, & holds exactly when every operand matches, and \| exactly when some operand matches |
| Filter.EqualSemantics | src/sd/filter.c:173-195 | (k=v) matches exactly when a value under k, as a string or as an integer in decimal, equals v |
| Filter.OrderSemantics | src/sd/filter.c:196-205 | (k>n) and (k<n) match exactly when an integer value under k is strictly greater, or strictly smaller, than n; string values never match |
| Filter.SubstringSemantics | src/sd/filter.c:391-466 | a substring filter matches exactly when some string value under the key has the initial, intermediate and final parts in order |
| Filter.Str | src/sd/filter.c:66-73 | filter_str: the canonical text of a filter; FilterParse.RoundTrip and FilterParse.CanonicalForms prove that parsing it gives the filter back |
| Filter.ComparisonHit | src/sd/filter.c:173-209 | the test comparison_matches_cb applies to one pair; Filter.EqualSemantics and Filter.OrderSemantics state what it decides |
| Filter.SubstringHit | src/sd/filter.c:391-452 | the test substring_matches_cb applies to one pair, with the corrected offset; Filter.SubstringSemantics states what it decides |
| Filter.IntermediatesMatch | src/sd/filter.c:418-450 | the intermediate and final part checks of substring_matches_cb, with the corrected offset; Filter.IntermediatesMatchSpec states that they succeed exactly when the parts occur in order without overlap |
| Filter.IntermediatesMatchAsWritten | src/sd/filter.c:418-450 | the same checks with the offset as written at filter.c:430; Filter.SubstringOffsetCounterexample shows "ba" accepted by (k=*a*b*) |
| Filter.SubstringMatches | src/sd/filter.c:403-450 | substring_matches_cb on one string value with the corrected offset; Filter.SubstringMatchesSpec states its in-order, non-overlapping semantics |
| Filter.SubstringMatchesAsWritten | src/sd/filter.c:403-450 | substring_matches_cb on one string value as written; Filter.SubstringOffsetCounterexample shows where it differs from the corrected one |
| Filter.Matches | src/sd/filter.c:60-64 | filter_matches, dispatching on the filter kind, with the corrected substring offset; Filter.BooleanSemantics, EqualSemantics, OrderSemantics and SubstringSemantics state its meaning for each kind |
| FilterParse.Current | src/sd/filter.c:688-698 | input_current yields a character exactly when input is left |
| FilterParse.Expect | src/sd/filter.c:710-718 | input_expect consumes one character; it fails at the end of the input and, in the corrected parser, when the character is not the expected one |
| FilterParse.ParseStr | src/sd/filter.c:742-782 | parse_str stops at an unescaped special character, which it leaves unread |
| FilterParse.ParseStrLoop | src/sd/filter.c:748-776 | the loop of parse_str leaves a suffix of its input that starts with a special character |
| FilterParse.ParseInt | src/sd/filter.c:784-810 | parse_int consumes input and yields an int64 |
| FilterParse.ParseSubstringAndPresent | src/sd/filter.c:839-891 | the substring and presence parser only consumes input |
| FilterParse.ParseEqual | src/sd/filter.c:893-920 | the equality parser only consumes input |
| FilterParse.ParseOrder | src/sd/filter.c:924-936 | the > and < parser only consumes input |
| FilterParse.ParseSimple | src/sd/filter.c:938-972 | the simple-expression parser only consumes input |
| FilterParse.Parse | src/sd/filter.c:1018-1035 | parse only consumes input |
| FilterParse.ParseNot | src/sd/filter.c:814-837 | parse_not only consumes input |
| FilterParse.ParseComposite | src/sd/filter.c:974-1016 | parse_composite only consumes input |
| FilterParse.Operands | src/sd/filter.c:981-1011 | the operand loop of parse_composite only consumes input |
| FilterParse.ParseStrLoopEscape | src/sd/filter.c:742-782 | the loop of parse_str reads an escaped string back, up to the special character after it |
| FilterParse.ParseStrEscape | src/sd/filter.c:742-782 | parse_str undoes filter_escape |
| FilterParse.ParseIntDecimal | src/sd/filter.c:784-810 | parse_int reads back the escaped decimal rendering of every int64 |
| FilterParse.SubstringRoundTrip | src/sd/filter.c:839-891 | the substring parser reads printed intermediate and final parts back to the same parts |
| FilterParse.SimpleStart | src/sd/filter.c:938-972 | an expression that starts with a key and an operator goes to parse_simple, which reads the key back |
| FilterParse.EqualRoundTrip | src/sd/filter.c:893-920 | the printed body of (k=v) parses back to the same comparison |
| FilterParse.OrderRoundTrip | src/sd/filter.c:924-936 | the printed body of (k>n) or (k<n) parses back to the same comparison |
| FilterParse.EqualThenAny | src/sd/filter.c:906-912 | after "=", a value followed by "*" hands over to the substring parser |
| FilterParse.SubstringFilterRoundTrip | src/sd/filter.c:839-920 | a printed substring pattern parses back to the same pattern, or to a presence test when it has no parts |
| FilterParse.SimpleRoundTrip | src/sd/filter.c:938-972 | every printed simple expression parses back to itself |
| FilterParse.PresentRoundTrip | src/sd/filter.c:310-319 | the printed presence test (k=*) parses back to itself |
| FilterParse.SubstringBodyRoundTrip | src/sd/filter.c:468-497 | the printed body of a well-formed substring filter parses back to itself |
| FilterParse.BodyRoundTrip | src/sd/filter.c:1018-1035 | the printed body of every well-formed filter parses back to it, whatever follows the closing parenthesis |
| FilterParse.OperandsRoundTrip | src/sd/filter.c:974-1016 | printed operands parse back to the same composite when there are at least two of them |
| FilterParse.RoundTrip | src/sd/filter.c:1037-1063 | filter_parse(filter_str(f)) gives f back for every well-formed filter |
| FilterParse.ParseStrSuffix | src/sd/filter.c:742-782 | what parse_str leaves unread is a suffix of its input |
| FilterParse.SubstringSound | src/sd/filter.c:839-891 | a substring or presence filter that was parsed is well formed, and what is left is a suffix of the input |
| FilterParse.EqualSound | src/sd/filter.c:893-920 | a parsed equality is well formed; the parser as written agrees on it |
| FilterParse.OrderSound | src/sd/filter.c:924-936 | a parsed > or < is well formed; the parser as written agrees on it |
| FilterParse.SimpleSound | src/sd/filter.c:938-972 | a parsed simple expression is well formed; the parser as written agrees on it |
| FilterParse.ParseSound | src/sd/filter.c:1018-1035 | whatever the corrected parser accepts is well formed, leaves a suffix of the input, and is accepted alike by the parser as written |
| FilterParse.NotSound | src/sd/filter.c:814-837 | a parsed negation is well formed; the parser as written agrees on it |
| FilterParse.CompositeSound | src/sd/filter.c:974-1016 | a parsed composite is well formed, and so has at least two operands; the parser as written agrees on it |
| FilterParse.OperandsSound | src/sd/filter.c:981-1011 | the operand loop yields a well-formed composite |
| FilterParse.WholeInput | src/sd/filter.c:1037-1063 | with the corrected input_expect, filter_parse accepts only one parenthesised expression spanning the whole input, so leading or trailing characters such as spaces are rejected |
| FilterParse.FilterParseSound | src/sd/filter.c:1037-1063 | every filter the corrected parser accepts is well formed, and the parser as written accepts it too |
| FilterParse.CanonicalForms | src/sd/filter.c:1037-1063 | a string survives filter_parse then filter_str unchanged exactly when it is the canonical form of some well-formed filter |
| FilterParse.ReparseParsed | src/sd/filter.c:66-73 | printing a parsed filter and parsing the result gives the same filter |
| FilterParse.FilterEqualIff | src/sd/filter.c:75-89 | filter_equal holds on well-formed filters exactly when they are the same filter |
| FilterParse.ExpectCounterexample | src/sd/filter.c:710-718 | the parser as written accepts "Xa=b)", which does not start with "(", and the corrected parser rejects it |
| FilterParse.TestEqualRoundTrip | test/sd/filter_testcases.c:59 | "(foo=xx)" parses to the equality foo = xx |
| FilterParse.TestPresentRoundTrip | test/sd/filter_testcases.c:75 | "(foo=*)" parses to a presence test of foo |
| FilterParse.TestOrderRoundTrip | test/sd/filter_testcases.c:90 | "(bar>-4)" parses to bar > -4 |
| FilterParse.TestNotRoundTrip | test/sd/filter_testcases.c:103 | "(!(foo>9))" parses to the negation of foo > 9 |
| FilterParse.FilterParse | src/sd/filter.c:1037-1063 | filter_parse with the checking or the as-written input_expect; FilterParse.FilterParseSound states that an accepted filter is well formed |
| FilterParse.ParseFilter | src/sd/filter.c:1037-1063 | filter_parse with the corrected input_expect; FilterParse.RoundTrip and FilterParse.WholeInput state the round trip and that the whole input is one expression |
| FilterParse.ParseFilterAsWritten | src/sd/filter.c:1037-1063 | filter_parse as written; FilterParse.ExpectCounterexample shows it accepting "Xa=b)" |
| FilterParse.IsValid | src/sd/filter.c:1065-1072 | filter_is_valid with the corrected parser; FilterInput.FilterIsValid is the imperative form proved equal to it |
| FilterImpl.EscapeConcat | src/sd/filter.c:1074-1089 | escaping a concatenation is the concatenation of the escapes, so the escaped parts can be appended one after another |
| FilterImpl.FilterEscape | src/sd/filter.c:1074-1089 | the escaping loop of filter_escape produces exactly Escape(s), the string parse_str reads back to s |
| FilterImpl.AppendEscapedChar | src/sd/filter.c:1080-1085 | one step of the escaping loop appends exactly the escape of that one character: an escape character before a special one, then the character |
| FilterImpl.AppendEscaped | src/sd/filter.c:225-232 | append_escaped leaves the buffer holding its old contents followed by Escape(s), and the buffer stays well formed |
| FilterImpl.IntermediatesSnoc | src/sd/filter.c:481-490 | each intermediate value adds its escape and one wildcard to the printed text |
| FilterImpl.OperandsSnoc | src/sd/filter.c:667-680 | each operand adds its own canonical string to the printed text |
| FilterImpl.FilterStr | src/sd/filter.c:66-73 | filter_str returns the canonical string Str(f), the one filter_parse reads back to f |
| FilterImpl.StrInto | src/sd/filter.c:234-241 | printing a filter into a buffer appends exactly Str(f) |
| FilterImpl.ComparisonText | src/sd/filter.c:243-252 | an equality or ordering filter prints as '(' key op value ')' with key and value escaped and the bound in decimal |
| FilterImpl.ComparisonStr | src/sd/filter.c:243-252 | comparison_str appends exactly Str(f) for =, > and < filters |
| FilterImpl.AppendComparison | src/sd/filter.c:243-252 | the comparison printer appends '(' key op value ')' with key and value escaped |
| FilterImpl.PresentStr | src/sd/filter.c:310-319 | present_str appends exactly Str(Present(k)), that is (k=*) |
| FilterImpl.SubstringStr | src/sd/filter.c:468-497 | substring_str appends exactly Str(f) for a substring filter |
| FilterImpl.SubstringText | src/sd/filter.c:468-497 | a substring filter prints as its head (key, '=', initial, '*') followed by its tail (intermediates, final, ')') |
| FilterImpl.SubstringHead | src/sd/filter.c:472-479 | the first half of substring_str appends '(' key '=' initial '*' |
| FilterImpl.SubstringTail | src/sd/filter.c:481-496 | the second half of substring_str appends each intermediate with a wildcard, then the final part and ')' |
| FilterImpl.AppendIntermediates | src/sd/filter.c:481-491 | the intermediate loop appends each escaped intermediate followed by a wildcard, in order |
| FilterImpl.AppendIntermediate | src/sd/filter.c:484-489 | one intermediate is appended escaped and followed by a single wildcard |
| FilterImpl.NotStr | src/sd/filter.c:555-565 | not_str appends exactly Str(Not(g)): "(" and "!", then the operand's canonical string, then ")" |
| FilterImpl.CompositeStr | src/sd/filter.c:667-680 | composite_str appends exactly Str(f) for & and \| filters |
| FilterImpl.AppendOperands | src/sd/filter.c:667-680 | the operand loop appends the canonical strings of all operands, in order |
| FilterImpl.FilterEqualM | src/sd/filter.c:75-89 | filter_equal compares the canonical strings, which is the same as comparing the filters themselves |
| FilterInput.Input.constructor | src/sd/filter.c:1040-1042 | a new input reads the whole string from offset zero |
| FilterInput.Input.Current | src/sd/filter.c:688-698 | input_current yields the next character, or nothing at the end of the input |
| FilterInput.Input.IsCurrent | src/sd/filter.c:700-708 | input_is_current answers -1 at the end of the input, 1 when the next character is the expected one, 0 otherwise |
| FilterInput.Input.Skip | src/sd/filter.c:720-730 | input_skip advances one character when there is one and fails with -1, leaving the offset alone, at the end |
| FilterInput.Input.ExpectAsWritten | src/sd/filter.c:710-718 | input_expect as written: fails only at the end of the input and otherwise consumes any character |
| FilterInput.Input.Expect | src/sd/filter.c:710-718 | the corrected input_expect consumes the next character only when it is the expected one and fails otherwise, leaving the offset alone |
| FilterInput.Input.Left | src/sd/filter.c:732-735 | input_left is the number of characters not yet read |
| FilterInput.ParseStr | src/sd/filter.c:742-782 | parse_str on the input agrees with the functional parser on both the result and the input left |
| FilterInput.ParseInt | src/sd/filter.c:784-810 | parse_int on the input agrees with the functional parser on both the result and the input left |
| FilterInput.ParseSubstringAndPresent | src/sd/filter.c:839-891 | parse_substring_and_present on the input agrees with the functional parser on both the result and the input left |
| FilterInput.ParseEqual | src/sd/filter.c:893-920 | parse_equal on the input agrees with the functional parser on both the result and the input left |
| FilterInput.ParseOrder | src/sd/filter.c:924-936 | parse_greater_and_less_than on the input agrees with the functional parser on both the result and the input left |
| FilterInput.ParseSimple | src/sd/filter.c:938-972 | parse_simple on the input agrees with the functional parser on both the result and the input left |
| FilterInput.Parse | src/sd/filter.c:1018-1035 | parse on the input agrees with the functional parser on both the result and the input left |
| FilterInput.ParseNot | src/sd/filter.c:814-837 | parse_not on the input agrees with the functional parser on both the result and the input left |
| FilterInput.ParseComposite | src/sd/filter.c:974-1016 | parse_composite on the input agrees with the functional parser on both the result and the input left |
| FilterInput.FilterParse | src/sd/filter.c:1037-1063 | filter_parse returns exactly the functional ParseFilter(s), for which the print/parse round trip is proved |
| FilterInput.FilterIsValid | src/sd/filter.c:1065-1072 | filter_is_valid holds exactly when the string parses as a filter |
| Generation.Fresh | src/sd/generation.c:21-33 | a new generation has no field set and is not consistent; setting a non-negative generation, props, a non-negative TTL, an orphan time and a non-negative client id makes it consistent, and only those values do |
| Generation.Generation.constructor | src/sd/generation.c:21-33 | generation_create yields the fresh generation value |
| Generation.Generation.Clone | src/sd/generation.c:35-48 | generation_clone yields a new object with the same value, hence equally consistent |
| Generation.Generation.IsConsistentNow | src/sd/generation.c:50-55 | generation_is_consistent holds exactly when generation, TTL and client id are non-negative and props and orphan time are set |
| Generation.Generation.SetGeneration | src/sd/generation.c:57-74 | the generation setter changes the generation number and nothing else |
| Generation.Generation.SetProps | src/sd/generation.c:79-84 | generation_set_props replaces the props with a copy and changes nothing else |
| Generation.Generation.SetTtl | src/sd/generation.c:57-75 | the TTL setter changes the TTL and nothing else |
| Generation.Generation.SetOrphanSince | src/sd/generation.c:57-76 | the orphan-time setter changes the orphan time and nothing else |
| Generation.Generation.SetClientId | src/sd/generation.c:57-77 | the client-id setter changes the client id and nothing else |
| Generation.IsConsistent | src/sd/generation.c:50-55 | generation_is_consistent: generation, ttl and client id are non-negative, props are set and orphan_since is not NaN; Generation.Generation.IsConsistentNow is proved to answer it |
| Services.Create | src/sd/service.c:31-44 | a new service has its id, no current or previous generation and no change in progress |
| Services.AddBegin | src/sd/service.c:89-95 | service_add_begin, allowed only with no change in progress, starts an add with a fresh (inconsistent) next generation and keeps current and previous |
| Services.ModifyBegin | src/sd/service.c:97-103 | service_modify_begin starts a modification whose next generation is a copy of the current one |
| Services.Commit | src/sd/service.c:105-120 | service_commit, allowed only for a consistent next generation, makes next current and current previous, ends the change and reports it as Added or Modified |
| Services.Remove | src/sd/service.c:122-133 | service_remove makes current previous, leaves no current generation and reports Removed |
| Services.Abort | src/sd/service.c:135-142 | service_abort drops the next generation and leaves current and previous as they were |
| Services.SetGeneration | src/sd/service.c:149-169 | during a change, the generation setter changes only the next generation's number |
| Services.SetProps | src/sd/service.c:149-170 | during a change, the props setter changes only the next generation's props |
| Services.SetTtl | src/sd/service.c:149-171 | during a change, the TTL setter changes only the next generation's TTL |
| Services.SetOrphanSince | src/sd/service.c:149-172 | during a change, the orphan-time setter changes only the next generation's orphan time |
| Services.SetClientId | src/sd/service.c:149-173 | during a change, the client-id setter changes only the next generation's client id |
| Services.SetNonOrphan | src/sd/service.c:175-178 | service_set_non_orphan stores orphan time -1, after which the next generation is not an orphan |
| Services.AbortUndoesBegin | src/sd/service.c:89-142 | aborting right after add_begin or modify_begin restores the service exactly |
| Services.CommitAndRemoveSettle | src/sd/service.c:105-133 | commit and remove end with no change in progress and every remaining generation consistent |
| Services.OrphanHistory | src/sd/service.c:180-201 | after a commit, was_orphan answers what is_orphan answered before it, and is_orphan answers for the committed generation |
| Services.RemoveOrphanHistory | src/sd/service.c:195-201 | after a remove, was_orphan answers what is_orphan answered before it |
| Services.FirstCommitWasNotOrphan | src/sd/service.c:195-201 | the first commit of a new service reports Added, installs the generation and has no orphan history |
| Services.IsOrphan | src/sd/service.c:180-183 | service_is_orphan: the current generation's orphan_since is non-negative; Services.OrphanHistory relates it to the previous generation after a commit |
| Services.WasOrphan | src/sd/service.c:195-201 | service_was_orphan: false without a previous generation, otherwise that generation's orphan_since is non-negative; Services.OrphanHistory and Services.FirstCommitWasNotOrphan state it after a commit |
| ServiceObjects.Service.constructor | src/sd/service.c:31-44 | service_create yields a service with reference count 1 in the Create state |
| ServiceObjects.Service.IncRef | src/sd/service.c:46-51 | service_inc_ref adds one reference and leaves the service's state alone |
| ServiceObjects.Service.DecRef | src/sd/service.c:62-72 | service_dec_ref drops one reference and destroys the service exactly when none is left |
| ServiceObjects.Service.HasOngoingChange | src/sd/service.c:74-87 | has_ongoing_change holds exactly when a change is in progress, which is exactly when a next generation exists |
| ServiceObjects.Service.AddBegin | src/sd/service.c:89-95 | the object's new state is Services.AddBegin of the old one |
| ServiceObjects.Service.ModifyBegin | src/sd/service.c:97-103 | the object's new state is Services.ModifyBegin of the old one |
| ServiceObjects.Service.Commit | src/sd/service.c:105-120 | the object's new state and the reported change are Services.Commit of the old state |
| ServiceObjects.Service.Remove | src/sd/service.c:122-133 | the object's new state and the reported change are Services.Remove of the old state |
| ServiceObjects.Service.Abort | src/sd/service.c:135-142 | the object's new state is Services.Abort of the old one |
| ServiceObjects.Service.SetGeneration | src/sd/service.c:149-169 | the object's new state is Services.SetGeneration of the old one |
| ServiceObjects.Service.SetProps | src/sd/service.c:149-170 | the object's new state is Services.SetProps of the old one |
| ServiceObjects.Service.SetTtl | src/sd/service.c:149-171 | the object's new state is Services.SetTtl of the old one |
| ServiceObjects.Service.SetOrphanSince | src/sd/service.c:149-172 | the object's new state is Services.SetOrphanSince of the old one |
| ServiceObjects.Service.SetClientId | src/sd/service.c:149-173 | the object's new state is Services.SetClientId of the old one |
| ServiceObjects.Service.SetNonOrphan | src/sd/service.c:175-178 | the object's new state is Services.SetNonOrphan of the old one |
| ServiceObjects.Service.IsOrphanNow | src/sd/service.c:180-183 | service_is_orphan holds exactly when the current orphan time is non-negative |
| ServiceObjects.Service.WasOrphanNow | src/sd/service.c:195-201 | service_was_orphan is false without a previous generation and otherwise tells whether it was an orphan |
| Subs.Notify | src/sd/sub.c:70-112 | sub_notify reports Appeared for an added matching service, Disappeared for a removed one that matched, and for a modification Modified, Appeared, Disappeared or nothing by whether it matched before and after |
| Subs.NotifyTracksVisibility | src/sd/sub.c:65-112 | each notification kind is reported exactly when the subscription's view of the service changed that way (not seen to seen, seen to not seen, seen to seen), and nothing exactly when it is not seen either side |
| Subs.UnfilteredHearsEverything | src/sd/sub.c:65-68 | a subscription without a filter is told of every change |
| Subs.ChangesAreNotifiable | src/sd/service.c:105-133 | every commit and remove of a service whose generations are consistent produces a change that sub_notify can be given |
| Subs.Matches | src/sd/sub.c:65-68 | the subscription's match test: every service without a filter, otherwise filter_matches; Subs.NotifyTracksVisibility states the notifications in terms of it |
| SubObjects.Sub.constructor | src/sd/sub.c:22-38 | sub_create yields a subscription with the id, a copy of the filter and the client id, with reference count 1 |
| SubObjects.Sub.IncRef | src/sd/sub.c:40-45 | sub_inc_ref adds one reference |
| SubObjects.Sub.DecRef | src/sd/sub.c:53-63 | sub_dec_ref drops one reference and destroys the subscription exactly when none is left |
| SubObjects.Sub.FilterStr | src/sd/sub.c:124-127 | sub_get_filter_str is absent without a filter and the filter's canonical string otherwise |
| Conns.Without | src/sd/conn.c:89-92 | deleting an id from a connection's map keeps every other id and drops that one |
| Conns.WithoutDistinct | src/sd/conn.c:89-92 | deleting from a map without duplicates leaves none and shrinks it by one when the id was there |
| Conns.WithoutAppended | src/sd/conn.c:84-92 | deleting the id just added gives back the earlier map |
| Conns.Create | src/sd/conn.c:25-39 | a new connection is connected (disconnect time -1), not stale, with no services or subscriptions |
| Conns.MarkDisconnected | src/sd/conn.c:71-76 | conn_mark_disconnected, allowed only on a connected connection, records the disconnect time and changes nothing else |
| Conns.AddService | src/sd/conn.c:84-87 | adding a service id keeps the others, and a connection holding a service is not stale |
| Conns.DelService | src/sd/conn.c:89-92 | deleting a service id removes it and keeps the rest of the connection |
| Conns.AddSub | src/sd/conn.c:84-87 | adding a subscription id appends it and changes nothing else |
| Conns.DelSub | src/sd/conn.c:89-92 | deleting a subscription id removes it and keeps the rest of the connection |
| Conns.ClearSubs | src/sd/conn.c:118-121 | conn_clear_subs empties the subscriptions and keeps the services |
| Conns.ConnectedNotStale | src/sd/conn.c:78-81 | a connected connection is never stale |
| Conns.AddDelService | src/sd/conn.c:84-92 | deleting a service just added restores the connection |
| Conns.AddDelSub | src/sd/conn.c:84-92 | deleting a subscription just added restores the connection |
| ConnObjects.Conn.constructor | src/sd/conn.c:25-39 | conn_create yields the Create value for the address and time |
| ConnObjects.Conn.IsConnectedNow | src/sd/conn.c:51-54 | conn_is_connected holds exactly when the disconnect time is negative |
| ConnObjects.Conn.MarkDisconnected | src/sd/conn.c:71-76 | the object's new state is Conns.MarkDisconnected of the old one |
| ConnObjects.Conn.IsStaleNow | src/sd/conn.c:78-81 | conn_is_stale holds exactly when disconnected with no services |
| ConnObjects.Conn.HasService | src/sd/conn.c:94-97 | conn_has_service holds exactly when the id is in the services |
| ConnObjects.Conn.AddService | src/sd/conn.c:84-87 | the object's new state is Conns.AddService of the old one |
| ConnObjects.Conn.DelService | src/sd/conn.c:89-92 | the object's new state is Conns.DelService of the old one |
| ConnObjects.Conn.HasSub | src/sd/conn.c:94-97 | conn_has_sub holds exactly when the id is in the subscriptions |
| ConnObjects.Conn.AddSub | src/sd/conn.c:84-87 | the object's new state is Conns.AddSub of the old one |
| ConnObjects.Conn.DelSub | src/sd/conn.c:89-92 | the object's new state is Conns.DelSub of the old one |
| ConnObjects.Conn.ClearSubs | src/sd/conn.c:118-121 | the object's new state is Conns.ClearSubs of the old one |
| Db.Keys | src/sd/db.c:73-78 | a foreach over a table visits every id in it exactly once |
| Db.Db.constructor | src/sd/db.c:26-37 | db_create yields empty client, service and subscription tables |
| Db.Db.HasClient | src/sd/db.c:51-54 | db_has_client holds exactly when the id is a key |
| Db.Db.GetClient | src/sd/db.c:56-59 | db_get_client finds the stored record exactly when the id is a key |
| Db.Db.AddClient | src/sd/db.c:61-65 | db_add_client, for a non-negative id not yet present, adds the record and leaves the other tables alone |
| Db.Db.DelClient | src/sd/db.c:67-71 | db_del_client, for a non-negative id, removes the record and leaves the other tables alone |
| Db.Db.PutClient | src/sd/db.c:56-59 | a client record fetched by db_get_client and updated in place is stored back under the same id |
| Db.Db.HasService | src/sd/db.c:51-54 | db_has_service holds exactly when the id is a key |
| Db.Db.GetService | src/sd/db.c:56-59 | db_get_service finds the stored service exactly when the id is a key |
| Db.Db.AddService | src/sd/db.c:61-65 | db_add_service, for a non-negative id not yet present, adds the service and leaves the other tables alone |
| Db.Db.DelService | src/sd/db.c:67-71 | db_del_service, for a non-negative id, removes the service and leaves the other tables alone |
| Db.Db.PutService | src/sd/db.c:56-59 | a service fetched by db_get_service and updated in place is stored back under the same id |
| Db.Db.HasSub | src/sd/db.c:51-54 | db_has_sub holds exactly when the id is a key |
| Db.Db.GetSub | src/sd/db.c:56-59 | db_get_sub finds the stored subscription exactly when the id is a key |
| Db.Db.AddSub | src/sd/db.c:61-65 | db_add_sub, for a non-negative id not yet present, adds the subscription and leaves the other tables alone |
| Db.Db.DelSub | src/sd/db.c:67-71 | db_del_sub, for a non-negative id, removes the subscription and leaves the other tables alone |
| Db.Db.ClientIds | src/sd/db.c:73-78 | db_foreach_client visits every client id exactly once |
| Db.Db.ServiceIds | src/sd/db.c:73-78 | db_foreach_service visits every service id exactly once |
| Db.Db.SubIds | src/sd/db.c:73-78 | db_foreach_sub visits every subscription id exactly once |
| Clients.Create | src/sd/client.c:32-44 | client_create yields a client with no active connection and no inactive ones, which is therefore stale |
| Clients.ConnectedNotStale | src/sd/client.c:124-131 | a client whose active connection is connected is not stale |
| Clients.ServiceConn | src/sd/client.c:206-228 | get_service_conn finds the active connection when it holds the service, else the first inactive one that does, and nothing exactly when no connection holds it |
| Clients.FirstHolding | src/sd/client.c:200-216 | the search over the inactive list stops at the first connection holding the service, and finds none exactly when none holds it |
| Clients.IsConnected | src/sd/client.c:109-112 | client_is_connected: the client has an active connection; Clients.ConnectedNotStale states that such a client is not stale |
| Clients.IsStale | src/sd/client.c:124-131 | client_is_stale: every connection of the client, active or inactive, is stale; ClientOps.ClientIsStale is the loop proved against it |
| ClientSpec.EmptyConsistent | src/sd/db.c:26-37 | the empty database satisfies the ownership invariant |
| ClientSpec.OrphanOne | src/sd/client.c:160-171 | service_handle_conn_inactivation commits a modification whose current generation is the old one with the disconnect time as orphan time, and reports it as Modified |
| ClientSpec.OrphanAll | src/sd/client.c:186-187 | orphaning every service of a connection changes only those services, makes each an orphan and keeps its id and owner |
| ClientSpec.Release | src/sd/client.c:236-238 | the victim connection lets go of a captured service; the client keeps its id and its active-or-not status |
| ClientSpec.Capture | src/sd/client.c:230-241 | capture_service moves the service onto the capturing client's active connection and leaves the service and subscription tables alone |
| ClientSpec.Republished | src/sd/client.c:278-283 | a republish sets the next generation to the new number, props and TTL, not orphaned, owned by the publisher, and nothing else |
| ClientSpec.CommitInto | src/sd/service.c:105-120 | committing a service stores the committed value in the table, succeeds and reports that one change |
| ClientSpec.RemoveService | src/sd/client.c:317-341 | remove_service takes the service out of the table, leaves subscriptions alone and reports a removal whose previous generation is the service's last one |
| ClientSpec.Connect | src/sd/client.c:133-138 | client_connect of an unknown id: the client enters the table with one active connection and nothing else changes; ClientProps.ConnectKeeps proves the invariants kept |
| ClientSpec.Reconnect | src/sd/client.c:140-148 | client_reconnect: CLIENT_ALREADY_EXISTS for a connected client, otherwise a new active connection; ClientLaws.ReconnectLaw states both cases and ClientProps.ReconnectKeeps the invariants kept |
| ClientSpec.Disconnect | src/sd/client.c:150-198 | client_disconnect: the active connection's subscriptions are deleted, its services become orphans, and the connection becomes inactive or is dropped when stale; ClientLaws.DisconnectLaw, ClientProps.DisconnectKeeps and ClientProps.DisconnectOrphans state the effect and the invariants |
| ClientSpec.SameData | src/sd/client.c:256-259 | the same-data test of a same-generation republish: props_equal as written, or equality of pair multisets when corrected; ClientLaws.SameDataAsWrittenLooser relates the two |
| ClientSpec.PublishWith | src/sd/client.c:243-307 | client_publish with or without the corrections of the client.c:268-273 and props.c:73-83 rows; ClientLaws.PublishErrors, PublishNewer, PublishSame and PublishNew state its outcome for every input |
| ClientSpec.PublishAsWritten | src/sd/client.c:243-307 | client_publish as written; ClientLaws.PublishAsWrittenBreaksOrphanRule shows a republish that leaves a non-orphan on an inactive connection |
| ClientSpec.Publish | src/sd/client.c:243-307 | the corrected client_publish that the upper layers use; ClientProps.PublishKeeps proves it keeps consistency and the orphan rule |
| ClientSpec.WithoutService | src/sd/client.c:309-341 | the owner's record after remove_service: the service leaves its connection, and an inactive connection left stale is dropped; ClientProps.WithoutServiceShape states that the other connections are unchanged |
| ClientSpec.Unpublish | src/sd/client.c:343-380 | client_unpublish: NO_SUCH_SERVICE for an unknown id, otherwise a takeover of a foreign or orphaned service and then its removal; ClientLaws.UnpublishLaw and ClientProps.UnpublishKeeps state the outcome and the invariants |
| ClientSpec.PurgeAllowedAsWritten | src/sd/client.c:440-449 | the condition client_purge_orphan asserts as written (a disconnected owner); ClientLaws.PurgeAsWrittenRefused shows a reachable state where it fails |
| ClientSpec.PurgeOrphan | src/sd/client.c:440-449 | client_purge_orphan without the assert: the owner removes the orphan; ClientProps.PurgeOrphanKeeps and ClientLaws.PurgeAfterReconnect state the invariants kept and the removal |
| ClientSpec.CreateSub | src/sd/client.c:382-401 | client_create_sub: SUB_ALREADY_EXISTS for a known id, otherwise the subscription joins the table and the active connection; ClientLaws.CreateSubLaw and ClientProps.CreateSubKeeps state both |
| ClientSpec.Unsubscribe | src/sd/client.c:423-438 | client_unsubscribe: NO_SUCH_SUB for an unknown id, PERM_DENIED for one not on the caller's active connection, otherwise removal; ClientLaws.UnsubscribeLaw and ClientProps.UnsubscribeKeeps state the cases |
| ClientProps.UpdateClient | src/sd/client.c:32-44 | a client record replaced by one that holds exactly the services the client owns, with its subscriptions in the table, keeps the database consistent |
| ClientProps.UnknownOwnsNothing | src/sd/db.c:51-54 | no service is owned by a client id not in the database |
| ClientProps.ConnectKeeps | src/sd/client.c:133-138 | client_connect keeps the database consistent and keeps the orphan rule |
| ClientProps.ReconnectKeeps | src/sd/client.c:140-148 | client_reconnect keeps the database consistent and keeps the orphan rule |
| ClientProps.CreateSubKeeps | src/sd/client.c:382-401 | client_create_sub keeps the database consistent and keeps the orphan rule |
| ClientProps.UnsubscribeKeeps | src/sd/client.c:423-438 | client_unsubscribe keeps the database consistent and keeps the orphan rule |
| ClientProps.ReleaseShape | src/sd/client.c:236-238 | letting go of a service keeps a client's connections well formed and changes which services it holds only by that one |
| ClientProps.AdoptShape | src/sd/client.c:240 | adding a service to the active connection makes the client hold exactly one more service |
| ClientProps.CaptureClients | src/sd/client.c:230-241 | after capture_service the capturing client holds the service, no one else does, and every other holding is unchanged |
| ClientProps.CaptureKeeps | src/sd/client.c:230-241 | a captured service recommitted under its new owner keeps the database consistent, with exactly the capturer holding it |
| ClientProps.CaptureOrphans | src/sd/client.c:261-267 | a captured service that is not an orphan keeps the orphan rule |
| ClientProps.UpdateServiceKeeps | src/sd/service.c:105-120 | recommitting a service with the same owner keeps the database consistent |
| ClientProps.UpdateServiceOrphans | src/sd/client.c:268-273 | a service on its owner's active connection made non-orphan keeps the orphan rule |
| ClientProps.AddNewKeeps | src/sd/client.c:287-304 | a new service added to the table and to the publisher's active connection keeps the database consistent and, not being an orphan, the orphan rule |
| ClientProps.PublishKeeps | src/sd/client.c:243-307 | client_publish keeps the database consistent, and the corrected one (relocation and multiset props equality) keeps the orphan rule |
| ClientProps.WithoutServiceShape | src/sd/client.c:309-341 | after remove_service the owner holds every service it held but that one, and a client left stale holds nothing |
| ClientProps.RemoveServiceKeeps | src/sd/client.c:317-341 | remove_service of an owned service keeps the database consistent and restores the orphan rule |
| ClientProps.PurgeOrphanKeeps | src/sd/client.c:440-449 | client_purge_orphan keeps the database consistent and keeps the orphan rule |
| ClientProps.UnpublishKeeps | src/sd/client.c:343-380 | client_unpublish keeps the database consistent and keeps the orphan rule |
| ClientProps.InactivatedShape | src/sd/client.c:177-192 | after disconnect the client holds the same services, now on inactive connections, and is stale only if it holds none |
| ClientProps.DisconnectKeeps | src/sd/client.c:173-198 | client_disconnect keeps the database consistent and every client keeps the services it held |
| ClientProps.DisconnectOrphans | src/sd/client.c:173-198 | client_disconnect keeps the orphan rule: the services of the disconnected connection become orphans |
| ClientLaws.SameDataAsWrittenLooser | src/sd/client.c:256-259 | the same-data check as written (props_equal) accepts every republish the multiset check accepts, and also accepts [(x,1),(x,1)] against stored [(x,1),(y,2)], which the multiset check refuses |
| ClientLaws.PublishErrors | src/sd/client.c:243-307 | client_publish fails with SAME_GENERATION_BUT_DIFFERENT_DATA exactly for an equal generation with other props (by props_equal as written, or by multiset equality when corrected) or another TTL, with NEWER_SERVICE_GENERATION_EXISTS exactly for an older generation, and otherwise succeeds; on failure nothing changes |
| ClientLaws.PublishNewer | src/sd/client.c:274-284 | a newer generation replaces the service's data, owned by the publisher and not orphaned, reports one modification and moves the service to the publisher when it changes hands |
| ClientLaws.PublishSame | src/sd/client.c:256-273 | the same generation with the same data (by props_equal as written, or by multiset equality when corrected) is taken over by a new owner or revives an orphan, each reported as one modification, and is otherwise a no-op |
| ClientLaws.PublishNew | src/sd/client.c:287-304 | an unknown service is created with the given data on the publisher's active connection and reported as added |
| ClientLaws.ReconnectLaw | src/sd/client.c:140-148 | client_reconnect fails with CLIENT_ALREADY_EXISTS exactly for a connected client; otherwise it gives the client a new, empty active connection and keeps the inactive ones |
| ClientLaws.CreateSubLaw | src/sd/client.c:382-401 | client_create_sub fails exactly for a known id; otherwise the subscription joins the table and the active connection |
| ClientLaws.UnsubscribeLaw | src/sd/client.c:423-438 | client_unsubscribe fails with NO_SUCH_SUB for an unknown id and PERM_DENIED for another connection's subscription; otherwise the subscription is gone |
| ClientLaws.DisconnectLaw | src/sd/client.c:173-198 | client_disconnect drops the connection's subscriptions, orphans its services, and drops the client exactly when it holds no service |
| ClientLaws.StaleHoldsNothing | src/sd/client.c:189-195 | after disconnect the client is stale exactly when it holds no service |
| ClientLaws.UnpublishLaw | src/sd/client.c:343-380 | client_unpublish fails with NO_SUCH_SERVICE exactly for an unknown service; otherwise the service leaves the table after at most one modification, and the last change reported is its removal |
| ClientLaws.PublishAsWrittenBreaksOrphanRule | src/sd/client.c:268-273 | as written, an owner that republishes its orphan from a new connection leaves the service non-orphan on an inactive connection |
| ClientLaws.ReconnectedOwnerOfOrphan | src/sd/client.c:140-198 | after disconnect and reconnect the owner of a service is connected while the service is an orphan on an inactive connection |
| ClientLaws.PurgeAsWrittenRefused | src/sd/client.c:440-449 | as written, purging that orphan trips the assert that its owner is disconnected |
| ClientLaws.PurgeAfterReconnect | src/sd/client.c:440-449 | without that assert, purging the orphan removes it and keeps the database consistent and the orphan rule |
| ClientOps.ClientIsStale | src/sd/client.c:97-131 | the foreach over the client's connections answers exactly IsStale |
| ClientOps.GetServiceConn | src/sd/client.c:200-228 | the foreach search finds exactly ServiceConn |
| ClientOps.ClientConnect | src/sd/client.c:133-138 | the database's new state is Connect of the old one |
| ClientOps.ClientReconnect | src/sd/client.c:140-148 | the database's new state and the result are Reconnect of the old state |
| ClientOps.DeleteSubs | src/sd/client.c:150-158 | the subscriptions of the connection leave the table and nothing else changes |
| ClientOps.OrphanServices | src/sd/client.c:160-171 | the services of the connection are orphaned as OrphanAll says, and nothing else changes |
| ClientOps.ClientDisconnect | src/sd/client.c:173-198 | the database's new state and the changes reported are Disconnect of the old state |
| ClientOps.CaptureService | src/sd/client.c:230-241 | the database's new state is Capture of the old one |
| ClientOps.CommitService | src/sd/service.c:105-120 | the database's new state and the change reported are CommitInto of the old state |
| ClientOps.ClientPublish | src/sd/client.c:243-307 | the database's new state, the result and the changes reported are Publish of the old state |
| ClientOps.PublishExisting | src/sd/client.c:252-286 | for a known service the database's new state, the result and the changes reported are Publish of the old state: a different-data error, a capture and commit, or a newer-generation error as the generations say |
| ClientOps.PublishNew | src/sd/client.c:287-304 | for an unknown service the database's new state and the single addition reported are Publish of the old state |
| ClientOps.RemoveServiceOf | src/sd/client.c:317-341 | the database's new state and the change reported are RemoveService of the old state |
| ClientOps.ClientUnpublish | src/sd/client.c:343-380 | the database's new state, the result and the changes reported are Unpublish of the old state |
| ClientOps.ClientPurgeOrphan | src/sd/client.c:440-449 | the database's new state and the change reported are PurgeOrphan of the old state |
| ClientOps.ClientCreateSub | src/sd/client.c:382-401 | the database's new state and the result are CreateSub of the old state |
| ClientOps.ClientUnsubscribe | src/sd/client.c:423-438 | the database's new state and the result are Unsubscribe of the old state |
| SdOrphans.MaintainOrphansTable | src/sd/sd.c:206-235 | maintain_orphans adds a timer for a service that became an orphan, removes it for one that stopped being one or was removed as one, and updates it for an orphan that stays one |
| SdOrphans.ApplyTimer | src/sd/sd.c:206-235 | maintaining the timers for one change touches only that service's timer |
| SdOrphans.OrphanIds | src/sd/service.c:180-183 | the services due a timer are exactly those whose current generation is an orphan |
| SdOrphans.StepTimers | src/sd/sd.c:206-235 | after one reported change, the timers held are exactly the orphan services |
| SdOrphans.ReplayTimers | src/sd/sd.c:240-254 | after any sequence of reported changes the timers held are exactly the orphan services |
| SdOrphans.OrphanAllReplays | src/sd/client.c:186-187 | the changes reported while orphaning a connection's services lead to exactly the new services table |
| SdOrphans.PublishReplays | src/sd/client.c:243-307 | the changes client_publish reports lead to exactly the new services table |
| SdOrphans.RemovalReplays | src/sd/client.c:343-380 | a removal, optionally preceded by a modification, leads to the table without the service |
| SdOrphans.UnpublishReplays | src/sd/client.c:343-380 | the changes client_unpublish reports lead to exactly the new services table |
| SdOrphans.DisconnectReplays | src/sd/client.c:173-198 | the changes client_disconnect reports lead to exactly the new services table |
| SdOrphans.PurgeReplays | src/sd/client.c:440-449 | the changes client_purge_orphan reports lead to exactly the new services table |
| SdOrphans.MaintainOrphans | src/sd/sd.c:206-235 | maintain_orphans: a timer is added when a service becomes an orphan, removed when it stops being one or is removed, and updated while it stays one; SdOrphans.StepTimers proves that this keeps the timers equal to the orphans |
| SdOrphans.Timers | src/sd/sd.c:206-254 | the timer table after the changes service_changed receives, in order; SdOrphans.ReplayTimers proves it equals the orphan set of the replayed services table |
| SdOrphans.Replay | src/sd/sd.c:240-254 | the services table after the changes reported to service_changed, in order; SdOrphans.ReplayTimers and the *Replays lemmas connect it to each client operation |
| ServiceDiscovery.Sd.constructor | src/sd/sd.c:78-89 | sd_create starts with an empty database and no orphan timers |
| ServiceDiscovery.Sd.ServiceChanged | src/sd/sd.c:240-254 | service_changed maintains the orphan timers for the change and notifies exactly the subscriptions sub_notify says should hear of it |
| ServiceDiscovery.Sd.ServiceChanges | src/sd/sd.c:240-254 | a run of changes, each passed to service_changed in order, maintains the timers for all of them and notifies each as sub_notify says |
| ServiceDiscovery.Sd.ClientConnect | src/sd/sd.c:113-124 | sd_client_connect connects an unknown client and reconnects a known one, keeping the database invariant |
| ServiceDiscovery.Sd.ClientDisconnect | src/sd/sd.c:126-134 | sd_client_disconnect fails with NO_SUCH_CLIENT for an unknown client and otherwise disconnects it, keeps the invariants and reports every change to the subscriptions |
| ServiceDiscovery.Sd.Publish | src/sd/sd.c:256-267 | sd_publish fails with NO_SUCH_CLIENT for an unknown client and otherwise publishes, keeps the invariants and reports every change to the subscriptions |
| ServiceDiscovery.Sd.Unpublish | src/sd/sd.c:270-278 | sd_unpublish fails with NO_SUCH_CLIENT for an unknown client and otherwise unpublishes, keeps the invariants and reports every change to the subscriptions |
| ServiceDiscovery.Sd.OrphanTimeout | src/sd/sd.c:153-168 | when an orphan's timer fires its owner purges it: the service and its timer are gone and the removal is reported |
| ServiceDiscovery.Sd.CreateSub | src/sd/sd.c:280-303 | sd_create_sub fails with NO_SUCH_CLIENT for an unknown client and INVALID_FILTER for a filter that does not parse, and otherwise creates the subscription |
| ServiceDiscovery.Sd.Unsubscribe | src/sd/sd.c:312-320 | sd_unsubscribe fails with NO_SUCH_CLIENT for an unknown client and otherwise unsubscribes |
| ServiceDiscovery.Sd.ActivateSub | src/sd/client.c:403-421 | an activated subscription is told, as appeared, of exactly the published services that match it |
| ServiceDiscovery.Sd.ForeachService | src/sd/sd.c:335-367 | sd_foreach_service visits, once each, exactly the services that match the filter, or all of them without one |
| ProtoTa.Get | src/proto/proto_ta.c:186-196 | a field is found exactly when the message is an object that has a member of that name |
| ProtoTa.Member | src/proto/proto_ta.c:186-196 | a member lookup succeeds exactly when some member has that name |
| ProtoTa.TypeIn | src/proto/proto_ta.c:174-184 | the type lookup finds a type exactly when one has that command name, and what it finds has that name |
| ProtoTa.TypeNamedFindsEach | src/proto/proto_ta.c:161-184 | every transaction type in the table is found by its command name |
| ProtoTa.LookupType | src/proto/proto_ta.c:174-184 | lookup_type's loop finds exactly the table's type for the command, and finds one exactly when the command is known |
| ProtoTa.FirstFound | src/proto/proto_ta.c:174-184 | the lookup returns the first type with that name |
| ProtoTa.MatchTypeToEnum | src/proto/proto_ta.c:327-340 | proto_match_type_to_enum accepts exactly "appeared", "modified" and "disappeared", and enum_to_proto_match_type maps the result back |
| ProtoTa.MatchTypeRoundTrip | src/proto/proto_ta.c:327-355 | each match type is rendered and parsed back to itself, and distinct ones render differently |
| ProtoTa.ArrayPairs | src/proto/proto_ta.c:263-303 | a property's array is accepted exactly when each element is a string or an integer, and gives one pair per element under the property's name |
| ProtoTa.JsonToProps | src/proto/proto_ta.c:263-303 | json_to_props accepts exactly an object of arrays of strings and integers, and every pair it gives has a name from the object |
| ProtoTa.GetField | src/proto/proto_ta.c:357-463 | a missing field is an error when mandatory and absent when optional; a value found has the field's type; a uint63 field is accepted exactly when it is a non-negative integer |
| ProtoTa.CountPresent | src/proto/proto_ta.c:357-463 | the count of fields present is at most the number of fields |
| ProtoTa.Collect | src/proto/proto_ta.c:357-463 | collecting the field results gives one value per field and the count of those present |
| ProtoTa.CollectEach | src/proto/proto_ta.c:357-463 | the collection succeeds exactly when every field succeeds, and then holds each field's value |
| ProtoTa.FieldResults | src/proto/proto_ta.c:357-463 | each field is fetched on its own |
| ProtoTa.GetFieldsLaw | src/proto/proto_ta.c:357-463 | get_fields succeeds exactly when every field does; then it holds each field's value, each of the field's type, and the count of those present, which is all of them for mandatory fields |
| ProtoTa.CountAllPresent | src/proto/proto_ta.c:357-463 | when every field is present the count is the number of fields |
| ProtoTa.FetchFields | src/proto/proto_ta.c:357-463 | get_fields' loop returns a negative count exactly when the fields do not all fetch, and otherwise the values and count of GetFields; on failure no value is kept |
| ProtoTa.TaIdOf | src/proto/proto_ta.c:220-236 | the transaction id is accepted exactly when it is present as a non-negative integer |
| ProtoTa.MsgTypeOf | src/proto/proto_ta.c:239-261 | the message is a request exactly when its msg-type is the string "request" |
| ProtoTa.RequestRejections | src/proto/proto_ta.c:499-578 | proto_ta_req refuses a message without a valid ta-id, one that is not a request, one with an unknown command, one with a bad field and one with members beyond its fields |
| ProtoTa.RequestAccepted | src/proto/proto_ta.c:499-578 | an accepted request has a non-negative ta-id, a known command, request type, typed mandatory and optional fields, and no other members |
| ProtoTa.Next | src/proto/proto_ta.c:827-892 | no event follows a terminal state; only a multi-response transaction is accepted; fail is allowed exactly in a non-terminal state |
| ProtoTa.SingleNeverAccepted | src/proto/proto_ta.c:827-842 | a single-response transaction never reaches the accepted state |
| ProtoTa.TerminalIsLast | src/proto/proto_ta.c:859-899 | in any allowed run only the last event can be complete or fail, and nothing follows a terminal state |
| ProtoTa.Ta.constructor | src/proto/proto_ta.c:465-476 | proto_ta_create starts in the initialized state with ta-id -1 and no type |
| ProtoTa.Ta.Req | src/proto/proto_ta.c:499-578 | proto_ta_req succeeds exactly when the message parses as a request, then storing its id, type and field values in the requested state; on failure it returns -1, keeping the transaction id once the message has one and the type once the command is known, as those are stored before the later checks |
| ProtoTa.Ta.Respond | src/proto/proto_ta.c:665-720 | a response moves the transaction by the state machine, keeps its id, type and request fields, and carries the command, ta-id, message type and arguments |
| ProtoTa.Ta.HasTerm | src/proto/proto_ta.c:894-899 | proto_ta_has_term holds exactly in the failed and completed states, after which no event is allowed |
| ProtoTa.GetFields | src/proto/proto_ta.c:357-463 | get_fields: the field values in order and the number present, or nothing when a field is missing or ill-typed; ProtoTa.GetFieldsLaw states when it fails and what it returns |
| ProtoTa.ParseRequest | src/proto/proto_ta.c:499-578 | the checks proto_ta_req makes, in order; ProtoTa.RequestRejections and ProtoTa.RequestAccepted state each rejection and the accepted request |
| ProtoTa.Run | src/proto/proto_ta.c:827-892 | the transaction state after a sequence of accept, notify, complete and fail responses, if each is allowed; ProtoTa.SingleNeverAccepted and ProtoTa.TerminalIsLast state the protocol it enforces |
| ProtoConn.HelloOf | src/proto/proto_conn.c:78-143 | the hello fields read are non-negative |
| ProtoConn.Conn.constructor | src/proto/proto_conn.c:618-652 | a new protocol connection has client id -1, is not terminated and has nothing queued |
| ProtoConn.Conn.AwaitUpdate | src/proto/proto_conn.c:55-69 | a live connection waits to receive while the queue is under the soft limit and to send while it is not empty, and always waits for one of them |
| ProtoConn.Conn.QueueResponse | src/proto/proto_conn.c:71-76 | queue_response appends the response and changes nothing else |
| ProtoConn.Conn.HandleHello | src/proto/proto_conn.c:78-143 | handle_hello queues one reply: permission-denied for a second hello with another id, completion for one with the same id, unsupported-protocol-version for a range without the version, client-id-exists for a client connected elsewhere, and otherwise connects the client and completes, and it keeps the connection's own client connected once the handshake is done |
| ProtoConn.Conn.HelloAgain | src/proto/proto_conn.c:86-98 | after the handshake, a hello naming the connection's own id is completed again and one naming another id is failed with permission-denied; the id is kept and one reply is queued |
| ProtoConn.Conn.HelloFirst | src/proto/proto_conn.c:100-142 | before the handshake: a version range without PROTO_VERSION is failed, a client connected elsewhere is failed with client-id-exists (database unchanged), otherwise the client is connected, the connection takes its id and the hello completes |
| ProtoConn.Conn.HandleReq | src/proto/proto_conn.c:474-521 | handle_req refuses a message that is not a valid request and, before the handshake, every command but hello; it keeps the connection's own client connected once the handshake is done |
| ProtoConn.Conn.Term | src/proto/proto_conn.c:460-472 | term marks the connection terminated and, after a handshake, disconnects its client |
| ProtoConn.Conn.Receive | src/proto/proto_conn.c:523-562 | try_receive terminates the connection exactly when handling the message fails, and a connection left open still has its client connected |
| Release.Split | devtools/check-release.py:149 | str.split always yields at least one part |
| Release.JoinSplit | devtools/check-release.py:149 | the parts str.split yields contain no separator and joined with it give back the string |
| Release.SplitNoSep | devtools/check-release.py:149 | a string without the separator splits into itself alone |
| Release.SplitCons | devtools/check-release.py:149 | splitting a separator-free head, a separator and a tail gives the head followed by the tail's parts |
| Release.SplitJoin | devtools/check-release.py:149 | splitting separator-free parts joined by the separator gives the parts back |
| Release.Fields | devtools/check-release.py:56-60 | a version prints as two dot-separated numbers, or three with a patch |
| Release.NoDotInInt | devtools/check-release.py:56-60 | the decimal rendering of a number contains no dot |
| Release.VersionStrFields | devtools/check-release.py:56-60 | splitting __str__ at the dots gives back the printed major, minor and, when present, patch |
| Release.Lt | devtools/check-release.py:62-71 | __lt__ has no answer (it raises) exactly when major and minor agree and only one version has a patch |
| Release.Eq | devtools/check-release.py:73-82 | __eq__ holds exactly when the two versions are identical, patch presence included |
| Release.SeqLtOrder | devtools/check-release.py:62-71 | the lexicographic order on number sequences is irreflexive, transitive and total on distinct sequences |
| Release.LtLexicographic | devtools/check-release.py:62-71 | on versions with patches __lt__ is the lexicographic order on (major, minor, patch) |
| Release.LtWithoutPatch | devtools/check-release.py:62-71 | on versions without patches __lt__ is the lexicographic order on (major, minor) |
| Release.LtStrictOrder | devtools/check-release.py:49-82 | on versions with patches __lt__ is a strict total order and agrees with __eq__ |
| Release.GetTagVersion | devtools/check-release.py:147-153 | get_tag_version answers only for a name starting with 'v', and its version always has a patch |
| Release.VersionOf | devtools/check-release.py:150-153 | a version built from three parsed fields has a patch |
| Release.TagVersionRoundTrip | devtools/check-release.py:143-153 | get_tag_version reads the name tag_name gives any version with a patch back to that version |
| Release.PatchlessTagRefused | devtools/check-release.py:147-153 | the tag name of a version without a patch makes get_tag_version raise |
| Release.ExtraFieldsIgnored | devtools/check-release.py:149-153 | dot-separated fields after the patch are ignored by get_tag_version |
| Release.TagNameIsReleaseTag | devtools/check-release.py:140-144 | the tag name of a version with a non-negative major matches tag_re |
| Release.ReleaseTags | devtools/check-release.py:85-86 | get_release_tags keeps exactly the tags whose name matches tag_re |
| Release.AtCommit | devtools/check-release.py:89-90 | get_commit_release_tags keeps exactly the tags at the commit |
| Release.CommitReleaseTag | devtools/check-release.py:93-100 | get_commit_release_tag returns a tag exactly when one release tag is at the commit: that tag, which is the only one; otherwise it fails |
| Release.QualifiesIsOlder | devtools/check-release.py:116-122 | a tag survives the two skips of get_prev_release_tag exactly when it has the release's major and is older than it |
| Release.Pick | devtools/check-release.py:113-135 | the candidate chosen qualifies, no qualifying version is above it, it is above every earlier qualifying version, and there is none exactly when none qualifies |
| Release.TagVersions | devtools/check-release.py:103-104 | the versions of the tags are get_tag_version of each, in order |
| Release.AllSome | devtools/check-release.py:103-104 | reading every tag fails exactly when one tag fails, and otherwise gives each tag's version |
| Release.PickStep | devtools/check-release.py:124-135 | one more tag replaces the candidate exactly when it qualifies and is above the current candidate |
| Release.Versions | devtools/check-release.py:103-104 | get_release_versions raises exactly when some tag does not parse, and otherwise gives each tag's version |
| Release.ScanPrev | devtools/check-release.py:113-137 | the loop of get_prev_release_tag raises exactly when a tag does not parse, and otherwise returns the candidate PrevAmong chooses |
| Release.GetPrevReleaseTag | devtools/check-release.py:107-137 | get_prev_release_tag as written chooses among the release tags after the first |
| Release.GetPrevReleaseTagCorrected | devtools/check-release.py:107-137 | the corrected get_prev_release_tag chooses among all release tags |
| Release.PrevAmongLaw | devtools/check-release.py:113-137 | the previous release raises exactly when a tag does not parse, is none exactly when no tag qualifies, and otherwise is a qualifying tag above every other qualifying one and first among equals |
| Release.SkipsFirstRelease | devtools/check-release.py:113 | with two release tags where the first is the second's predecessor, the code as written finds no previous release and the corrected one finds the first |
| Release.SkippedFirstTag | devtools/check-release.py:113 | for tags v1.0.0 and v1.1.0 the code as written finds no release before 1.1.0 |
| Release.VersionStr | devtools/check-release.py:56-60 | Version.__str__; Release.VersionStrFields states that it splits back into the version's fields |
| Release.TagName | devtools/check-release.py:143-144 | tag_name; Release.TagVersionRoundTrip and Release.TagNameIsReleaseTag state that get_tag_version reads it back and that it is a release tag |
| Release.PrevAmong | devtools/check-release.py:113-137 | the loop of get_prev_release_tag over a list of tags; Release.PrevAmongLaw states that it gives the greatest strictly older qualifying tag, or none, or raises on a tag that does not parse |
| Release.PrevReleaseTag | devtools/check-release.py:107-137 | get_prev_release_tag with the scan over every release tag; Release.GetPrevReleaseTagCorrected is the loop proved to compute it |

## Left out

- Socket and event-loop I/O is not modelled. This covers `try_send`, the `xcm_*` calls, `src/proto/server.c` and `src/daemon/main.c`. `ProtoConn.Conn.Receive` takes the message that `try_receive` would have read, and leaves out the peer-closed and socket-error paths. The response messages are a `Response` record, not JSON text.
- `ProtoConn.Conn.HandleReq`: subscribe, unsubscribe, publish, unpublish, ping, services, subscriptions and clients are dispatched to handlers that are not part of this model. Their only effect here is a return of 0 after the handshake. The operations they call are modelled one layer down, in `ServiceDiscovery.Sd`.
- Clocks are parameters. `ut_ftime()` becomes a `now: nat` argument. The libevent orphan timers are the set of service ids that hold one (`SdOrphans`). Their deadlines, `service_orphan_time_left` and `orphan_timer_create`/`update_orphan_timer` are not modelled.
- Floating point is not modelled. `orphan_since` is `Option<int>`: `None` stands for the NaN of a fresh generation, and -1 means not an orphan. The `number` field type of the protocol is not modelled.
- JSON parsing is not modelled. A request is a small JSON datatype with an ordered member list. Duplicate member names and jansson's integer range are not modelled. Neither is the `va_list` marshalling in `produce_response`.
- Callbacks are results. `service_commit` and `service_remove` return the change kind. The client operations return the list of changes, which `ServiceDiscovery.Sd` then passes to `service_changed` in order. This is equivalent because the source's callbacks read nothing that the rest of the operation changes.
- Memory management and sharing are not modelled. Reference counts are integer fields of `Service` and `Sub`, with the source's preconditions. The client table holds client records by value, so the aliasing of shared `struct client` and `struct conn` records is not modelled. `client_inc_ref`/`client_dec_ref` and all `*_destroy` functions are left out.
- `sd_str_error` (`src/sd/sd_err.c`) maps error codes to messages. It is not modelled; only the codes are.
- The source's `ut_assert` preconditions become `requires`. Examples: `client_disconnect` and `client_publish` require a connected client, and `db_add_*` requires a non-negative id. `ServiceDiscovery.Sd.ClientConnect` requires a non-negative client id, which is what a validated hello always carries.
- ServiceDiscovery.Sd.ActivateSub: states which services the new subscription hears of, and that each is reported as appeared. It does not state that each is reported only once.
- Release.ScanPrev: requires a target version with a patch. The callers pass a version read by `get_tag_version`, which always has one. With a patch-less target the script raises a TypeError only once it reaches a tag with the target's major and minor version (check-release.py:121-122 compares the patches only then); before that, and when there is no such tag, it returns a candidate. Neither behaviour is modelled.
- Release.GetPrevReleaseTag: requires a target version with a patch, for the same reason.
- Python's `int()` is modelled for an optional sign, ASCII digits and single underscores between digits. It also accepts leading and trailing whitespace and the decimal digits of other scripts ("٣" is 3); `Decimal.PyInt` rejects both. A tag whose version field carries either is therefore treated as not parsing.
- `total_ordering` derives `<=`, `>` and `>=` from `__lt__` and `__eq__`. These derived operators are not modelled separately.
- The release checker's plumbing is not modelled: git, subprocess and tempfile calls, the build and test runners, and the command-line flags.
- Filter.Matches: implements the intended behaviour of the Findings row for src/sd/filter.c:430. Substring parts are searched for after the end of the previous match. As written, the filter (k=*a*b*) and a string value "ba" match, because the offset goes back to 0 after "a" is found at position 1; the model says they do not match (Filter.SubstringFilterCounterexample).
- Filter.SubstringHit: uses the same corrected offset, so it is false for the value "ba" and (k=*a*b*), where substring_matches_cb as written finds a match.
- Filter.SubstringSemantics: is stated for the corrected offset of the same Findings row. It does not hold of filter.c:391-466 as written, which matches "ba" against (k=*a*b*).
- Subs.Matches: decides with the corrected Filter.Matches, so a subscription with (k=*a*b*) does not match a service whose k is "ba", where sub.c:65-68 as written matches it.
- Subs.Notify: follows Subs.Matches, so for a service added with k="ba", a subscription with (k=*a*b*) gets no Appeared, where sub_notify as written reports one.
- Subs.NotifyTracksVisibility: is stated over Subs.Matches and so over the corrected substring offset.
- ServiceDiscovery.Sd.ServiceChanged: delivers what Subs.Notify decides, so the substring difference of the filter.c:430 Findings row reaches the deliveries; sd.c:240-254 as written delivers (k=*a*b*) notifications for a service with k="ba", and the model does not.
- ServiceDiscovery.Sd.ServiceChanges: calls ServiceChanged for each change and has the same difference.
- ServiceDiscovery.Sd.ClientDisconnect: reports the orphaning modifications through ServiceChanges, with the same substring difference.
- ServiceDiscovery.Sd.Publish: reports its changes through ServiceChanges, with the same substring difference, in addition to the corrected publish named below.
- ServiceDiscovery.Sd.Unpublish: reports its changes through ServiceChanges, with the same substring difference.
- ServiceDiscovery.Sd.OrphanTimeout: reports the removal through ServiceChanges, with the same substring difference, in addition to the corrected purge named below.
- ServiceDiscovery.Sd.ActivateSub: chooses the services it reports with Subs.Matches, so a subscription with (k=*a*b*) is not told of a service with k="ba", which client.c:403-421 as written reports.
- ServiceDiscovery.Sd.ForeachService: evaluates the filter with the corrected Filter.Matches, so (k=*a*b*) skips a service with k="ba", which sd.c:335-367 as written visits.
- FilterInput.Parse: calls parsers that use the corrected `input_expect` of the Findings row for src/sd/filter.c:710-718. As written, the checks for "(" and ")" inside a "!" or composite filter consume any character, so the source accepts inputs that the model rejects.
- FilterInput.ParseNot: uses the corrected `input_expect` of the same Findings row. As written, the "(" expected after "!" (filter.c:819) can be any character.
- FilterInput.ParseComposite: uses the corrected `input_expect` of the same Findings row. As written, the ")" expected after each operand (filter.c:998) can be any character.
- FilterInput.FilterParse: implements the intended behaviour of the same Findings row. As written, `filter_parse` accepts "Xa=b)", " a=b)" and "(a=b(", which the model rejects.
- FilterInput.FilterIsValid: implements the intended behaviour of the same Findings row, so it answers false for "Xa=b)", " a=b)" and "(a=b(", which filter.c:1065-1072 as written accepts.
- FilterParse.WholeInput: is proved for the corrected parser only. As written, filter.c:1044 consumes a leading space in place of the "(", so " a=b)" is accepted.
- ServiceDiscovery.Sd.CreateSub: validates the filter with the corrected parser of the same Findings row, so it refuses with INVALID_FILTER some filters that sd.c:280-303 as written accepts.
- ClientOps.ClientPublish: implements the corrected publish of the Findings rows for src/sd/client.c:268-273 and src/sd/props.c:73-83. A republish by the owner from a new connection moves the service to that connection, and the same-data check is multiset equality, not `props_equal` as written.
- ClientOps.PublishExisting: implements the same corrected publish for a known service.
- ServiceDiscovery.Sd.Publish: implements the same corrected publish. The as-written publish is `ClientSpec.PublishAsWritten`, which the upper layers do not use.
- ClientOps.ClientPurgeOrphan: implements the intended behaviour of the Findings row for src/sd/client.c:442. It purges the orphan whatever the owner's connection state, where the source's assert aborts when the owner has reconnected.
- ServiceDiscovery.Sd.OrphanTimeout: implements the same corrected purge. When the owner of a timed-out orphan has reconnected, the model purges the orphan; sd.c:153-168 as written reaches the assert in `client_purge_orphan` and aborts.
- Db.Keys: states which ids a foreach visits, not their order. The source visits them in insertion order (the `pmap` order), and sd.c's change notifications follow that order.
- Db.Db.ClientIds: states the visited ids, not their insertion order, for the same reason.
- Db.Db.ServiceIds: states the visited ids, not their insertion order, for the same reason.
- Db.Db.SubIds: states the visited ids, not their insertion order, for the same reason.
- PMap keys are `int`. pmap.h declares them `uint64_t`. The ids stored are the non-negative `int64_t` client, service and subscription ids, so wrap-around at 2^64 does not arise and is not modelled.
- Logging is not modelled.

## Findings

| source | as written | input that shows it | evidently intended | confidence | as-written member | corrected member |
|---|---|---|---|---|---|---|
| src/sd/filter.c:710-718 | `input_expect` checks only that a character is left. It consumes any character without comparing it to the expected one. | `filter_parse("Xa=b)")` accepts a filter that does not start with `(` | consume the character only when it is the expected one, and fail otherwise | high (not executed) | FilterParse.ExpectCounterexample | FilterInput.Input.Expect |
| src/sd/filter.c:430 | after a match of a substring part, the offset advances by the match position minus the start of the value, plus the part's length. The subtraction runs the wrong way. | `(k=*a*b*)` against the value `"ba"`: the search for `b` starts again at offset 0 and succeeds | continue searching just after the end of the previous match | high (not executed) | Filter.SubstringOffsetCounterexample | Filter.SubstringMatchesSpec |
| src/sd/props.c:73-83 | `props_equal` compares the counts and then checks that each pair of the first bag occurs somewhere in the second. That check is not symmetric when a pair is duplicated. The tests (test/sd/props_testcases.c:19-23) assert symmetry. | a = [(x,1),(x,1)], b = [(x,1),(y,2)]: equal(a, b) holds but equal(b, a) does not | equal exactly when the two bags hold the same multiset of pairs | medium (not executed) | Properties.EqualAsWrittenNotSymmetric | Properties.Props.EqualCorrected |
| devtools/check-release.py:113 | `get_prev_release_tag` loops over `release_tags[1:]`, so the first release tag is never a candidate | tags v1.0.0 and v1.1.0, target 1.1.0: the result is None instead of v1.0.0 | consider every release tag | high (not executed) | Release.SkippedFirstTag | Release.GetPrevReleaseTagCorrected |
| src/sd/client.c:268-273 | an owner that republishes its orphaned service from a new connection clears the orphan mark. The service stays in the inactive connection's map. | connect client 1 and publish service 7; disconnect and reconnect client 1; publish service 7 again with the same generation and data. Service 7 is then not an orphan but is held by an inactive connection, and it is no longer under the active connection. | move the service to the active connection, as is done when another client takes it over | medium (not executed) | ClientLaws.PublishAsWrittenBreaksOrphanRule | ClientProps.PublishKeeps |
| src/sd/client.c:442 | `client_purge_orphan` asserts that the owner is disconnected | a client disconnects, leaving an orphan, and reconnects without republishing it. When the orphan's timer fires, the purge trips the assert. | purge the orphan whatever the owner's connection state | medium (not executed) | ClientLaws.PurgeAsWrittenRefused | ClientLaws.PurgeAfterReconnect |
