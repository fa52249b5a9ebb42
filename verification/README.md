# SYNTHESE utilities: a verified model

This project models the self-contained algorithms of SYNTHESE, a public transport
information system written in C++, and proves what they are for.

- **XML node tree** (`XmlTree`, `XmlOrder`, `XmlEscape`, `XmlTokenizer`, `XmlParser`, `XmlNode`,
  `XmlPrinter`, `XmlWriter`, `XmlRoundTrip`, `XmlDocument`, `XmlPrintable`): the packed order array that
  must agree with four content arrays, the tokenizer over a mutable cursor, the recursive
  parser with its end-tag unwinding, the printer that first counts and then fills a buffer,
  and the round trip of print and parse, on one line or indented.
- **Lexical matcher** (`Levenshtein`, `FrenchSentence`): the edit distance in a matrix, the
  greedy matching of words in which a better word takes a slot over, and the prefix test
  over two nested cursors.
- **Binary formats** (`Crc32`, `Bytes`, `ZipWriter`, `MD5`, `MD5Transform`, `Base64`): the
  table-driven checksum, the archive writer and a reader for it, the streaming hash, and
  the encoder and decoder of base 64.
- **Natural order** (`Alphanum`): the two-mode comparison used as an ordering functor.
- **Form decoding** (`Split`, `Uri`, `QueryString`, `Multipart`, `MultipartBody`).
- **Cache in step with a table** (`Registry`, `SyncPolicy`).
- **Two monitors as step systems** (`Monitors`, `SharedMutex`, `ConcurrentQueue`).

`Wrappers`, `Slices`, `CText` and `MachineWords` hold an option type, facts about stretches of
a sequence, the reading of C strings, and the widths of unsigned numbers.

Code that the source runs in place is a class or a method here, each against a function
of its inputs or of the old state; the lemmas then say what that function is for. Numbers
keep the widths of the source where the width matters: the byte count, offsets and sizes of the
archive, the bit counter of the hash, the 64-bit values and 32-bit result of the natural
order, the reader count of the mutex.

Where the code does not do what its documentation or its use promise, the code is kept and
the exact condition is proved, with a failing input beside it: the distance guard admits a
length that the matrix does not hold (`Levenshtein.GuardIff`, `RowTouched`); a sentence with a
word of 256 phonemes leaves that matrix when compared with itself, and one with a longer word
does not match itself (`FrenchSentence.SelfScoreIff`, `LongWords`); the ordering functors are
no order on numbers from 2^31 on (`Alphanum.StrictWeakOrderIff`, `BigGoesBothWays`); a text
before another item comes back from the parser still escaped (`XmlDocument.RoundTripIff`,
`TextComesBackEscaped`); the parser makes attributes that the printer cannot print
(`XmlPrintable.ParsedPrintableIff`, `ValueLost`); printed text is not always terminated
(`XmlWriter.CreateXMLString`, `DeclarationNotTerminated`); a query loses keys with separators
(`QueryString.RoundTripIff`, `AmpersandIsLost`); an archive cannot be read back when a field
overflows (`ZipWriter.ArchiveRoundTripIff`, `TooManyEntries`); the block loop of the hash runs
away on the longest pieces (`MD5.CounterHoldsIff`, `LoopRunsAway`); a deletion that throws
leaves its object loaded (`SyncPolicy.InStepIff`, `StuckDeletion`); the reader count wraps
around (`SharedMutex.SafeIff`, `WriterAmongReaders`).

`dafny verify dfyconfig.toml` verifies the whole project.

## Model

| member | source | states |
|---|---|---|
| `XmlTree.EnumerationIsBijective` | src/01_util/XmlParser.cpp:1350-1388 | an order array that agrees with the four content arrays has as many entries as they have elements, each entry decodes in range, each element is named, and none twice: an enumeration visits every item exactly once |
| `XmlTree.DecodesInOrder` | src/01_util/XmlParser.cpp:609-614 | the entries of one type decode, in order, to 0, 1, ..., one less than their number |
| `XmlOrder.RunKeepsOrder` | src/01_util/XmlParser.cpp:609-670 | after any run of additions and child removals from a sound node, the node is sound and its entries of each of the four types decode in order to 0, ..., size - 1 |
| `XmlTree.AddChildView` | src/01_util/XmlParser.cpp:617-627 | adding a child keeps the agreement and appends exactly that child to the items the node stands for |
| `XmlTree.AddAttributeView` | src/01_util/XmlParser.cpp:632-643 | adding an attribute keeps the agreement and changes nothing but the attribute list |
| `XmlTree.AddTextView` | src/01_util/XmlParser.cpp:646-655 | adding a text keeps the agreement and appends exactly that text |
| `XmlTree.AddClearView` | src/01_util/XmlParser.cpp:658-670 | adding an unformatted section keeps the agreement and appends exactly that section |
| `XmlTree.RemovedAt` | src/01_util/XmlParser.cpp:277-289 | removal drops one entry of the order array: the earlier ones are untouched, and of the later ones those of the same type are one index lower |
| `XmlTree.RemoveKeepsRanks` | src/01_util/XmlParser.cpp:277-289 | removal of an entry of any type keeps every entry at the rank of its type, and lowers the count of that type alone |
| `XmlTree.RemoveChildView` | src/01_util/XmlParser.cpp:1691-1706 | the items left after the removal of a child are the former items without that child, in their order, and the attributes are the former ones |
| `XmlNode.XMLNode.AddToOrder` | src/01_util/XmlParser.cpp:609-614 | appends the packed entry `index * 4 + type` |
| `XmlNode.XMLNode.AddChild` | src/01_util/XmlParser.cpp:617-627 | the node gains the child and its order entry, nothing else changes |
| `XmlNode.XMLNode.AddAttribute` | src/01_util/XmlParser.cpp:632-643 | the node gains the attribute and its order entry, nothing else changes |
| `XmlNode.XMLNode.AddText` | src/01_util/XmlParser.cpp:646-655 | the node gains the text and its order entry, nothing else changes |
| `XmlNode.XMLNode.AddClear` | src/01_util/XmlParser.cpp:658-670 | the node gains the section and its order entry, nothing else changes |
| `XmlNode.XMLNode.RemoveOrderElement` | src/01_util/XmlParser.cpp:277-289 | finds the entry, closes the gap and renumbers the later entries of that type, in place |
| `XmlNode.XMLNode.RemoveChild` | src/01_util/XmlParser.cpp:1699-1706 | what the destruction of a child does to its parent: child and order entry go together, and the node stays sound |
| `XmlEscape.ToXMLString` | src/01_util/XmlParser.cpp:134-152 | writes exactly the escaped text from the given position on and a terminator, and nothing behind it |
| `XmlEscape.LengthXMLString` | src/01_util/XmlParser.cpp:155-171 | counts exactly the characters that the escaping writes |
| `XmlEscape.EscapeIsIdentityIff` | src/01_util/XmlParser.cpp:134-152 | escaping leaves a text as it is exactly when it holds none of the five characters, and never shortens it |
| `XmlEscape.EscapeIsInert` | src/01_util/XmlParser.cpp:134-152 | an escaped text holds no angle bracket, quote or NUL, and starts and ends with white space only if the text does |
| `XmlEscape.FromXMLString` | src/01_util/XmlParser.cpp:187-252 | the two passes of the decoder, which count and then copy, return the decoded text |
| `XmlEscape.DecodeInvertsEscape` | src/01_util/XmlParser.cpp:187-252 | wherever in a document an escaped text stands, decoding that stretch gives the text back |
| `XmlTokenizer.NextToken` | src/01_util/XmlParser.cpp:326-554 | every token but the error token moves the cursor forward, starts at a character that is no space and no NUL, and lies inside the document |
| `XmlTokenizer.XML.GetNextChar` | src/01_util/XmlParser.cpp:292-297 | reads the character under the cursor and moves over it, except at the end |
| `XmlTokenizer.XML.FindNonWhiteSpace` | src/01_util/XmlParser.cpp:300-322 | skips all white space and reads the next character |
| `XmlTokenizer.XML.ReadQuoted` | src/01_util/XmlParser.cpp:380-415 | a quoted token ends at its closing quote, with the white space behind it; a missing quote, or a tag before it, puts the cursor back |
| `XmlTokenizer.XML.ReadText` | src/01_util/XmlParser.cpp:487-543 | a text token ends before a bracket, an equals sign or a short-hand close, or over one white space |
| `XmlTokenizer.XML.GetNextToken` | src/01_util/XmlParser.cpp:326-554 | the cursor-moving tokenizer returns the token that the position determines, with its length and the next position |
| `XmlParser.ParseLoop` | src/01_util/XmlParser.cpp:745-1157 | the token loop ends on every document, inside it and never before its start, and reports success only without an error |
| `XmlParser.EndOfText` | src/01_util/XmlParser.cpp:673-693 | the trimmed length ends in a character that is no space, and is positive if the text starts with one |
| `XmlParser.ParseStringSound` | src/01_util/XmlParser.cpp:1184-1261 | whatever the document, the parsed tree has a nameless root and order arrays that agree with the contents at every depth, and every attribute and every element in it has a name |
| `XmlNode.XMLNode.FindEndOfText` | src/01_util/XmlParser.cpp:673-693 | the loop finds the length without trailing white space |
| `XmlNode.XMLNode.ParseClearTag` | src/01_util/XmlParser.cpp:713-741 | the section up to the first closing text is added and the cursor moves behind it; without one there is an error and the cursor stays |
| `XmlNode.XMLNode.ParseEndOfElement` | src/01_util/XmlParser.cpp:924-964 | an end tag decodes the pending text, and is pending for the callers when its name is not that of this element |
| `XmlNode.XMLNode.ParseChildElement` | src/01_util/XmlParser.cpp:803-921 | a start tag copies the pending text raw, parses the child, and unwinds while an end tag is pending |
| `XmlNode.XMLNode.ParseTagToken` | src/01_util/XmlParser.cpp:994-1148 | one token inside a start tag takes the step of the attribute automaton |
| `XmlNode.XMLNode.ParseContentToken` | src/01_util/XmlParser.cpp:786-991 | one token outside a tag takes the step of the contents automaton |
| `XmlNode.XMLNode.ParseXMLElement` | src/01_util/XmlParser.cpp:745-1157 | the imperative parser, on the shared cursor and the node in place, has the outcome, node, cursor, error and pending end tag of the recursive function |
| `XmlNode.ParseDocument` | src/01_util/XmlParser.cpp:1184-1261 | parsing a document returns the root, or nothing when an error was met |
| `XmlWriter.PutHead` | src/01_util/XmlParser.cpp:1415-1463 | indentation, bracket, name and attributes: the counting pass and the writing pass move by the same number of cells |
| `XmlWriter.PutAttributes` | src/01_util/XmlParser.cpp:1436-1463 | each named attribute is written with its escaped value, or alone for an empty value |
| `XmlWriter.PutStartTag` | src/01_util/XmlParser.cpp:1415-1490 | the start tag is closed as declaration, as parent, or left open for the short form |
| `XmlWriter.PutText` | src/01_util/XmlParser.cpp:1510-1530 | a text is written escaped, indented and on its own line when formatting |
| `XmlWriter.PutClear` | src/01_util/XmlParser.cpp:1534-1576 | an unformatted section is written with its opening and closing text |
| `XmlWriter.PutContents` | src/01_util/XmlParser.cpp:1500-1587 | the contents are written in the order of the order array |
| `XmlWriter.PutClosing` | src/01_util/XmlParser.cpp:1589-1649 | the end tag, or the short form, is written or counted |
| `XmlWriter.HasContents` | src/01_util/XmlParser.cpp:1465 | an element has items exactly when it counts more entries than attributes |
| `XmlWriter.CreateXMLStringR` | src/01_util/XmlParser.cpp:1397-1652 | with or without a buffer the routine returns the length of the text of the recursive printer; with one it writes that text and touches no cell behind the terminator |
| `XmlWriter.CreateXMLString` | src/01_util/XmlParser.cpp:1667-1684 | the sizing pass and the writing pass agree: the buffer holds the printed text in its first cbStr cells, for every sound tree and both formats; the cell behind it holds NUL, or what the allocation left there, as the last thing printed decides |
| `XmlWriter.ElementTerminated` | src/01_util/XmlParser.cpp:1589-1649 | the text of an element that is no declaration is terminated, in either format |
| `XmlWriter.DeclarationNotTerminated` | src/01_util/XmlParser.cpp:1466-1478 | a declaration without contents is printed without a terminator |
| `XmlWriter.LineNotTerminated` | src/01_util/XmlParser.cpp:1510-1576 | in formatted output no terminator follows a text or section that comes last: its line break covers it |
| `XmlDocument.ParsePrinted` | src/01_util/XmlParser.cpp:745-1157 | parsing the print, on one line or indented from any depth, of a document, any well-formed items not ending in a text and perhaps a declaration that holds the rest, gives a nameless root whose items are the printed ones, except that a text followed by another item is still escaped and an empty attribute value is no value |
| `XmlDocument.ReadDeclaration` | src/01_util/XmlParser.cpp:803-863 | as a declaration has no end tag, the parser takes all that follows it as its contents, and ends without an error |
| `XmlDocument.ParsePrintedElement` | src/01_util/XmlParser.cpp:1397-1652 | the same for one element printed alone, in any format |
| `XmlRoundTrip.ReadBackIff` | src/01_util/XmlParser.cpp:810-816 | what comes back is the element itself exactly when no attribute value is empty and no text before another item holds a character to escape |
| `XmlDocument.RoundTripIff` | src/01_util/XmlParser.cpp:745-1157 | parsing the print of a document, in any format, gives the same items exactly under that condition |
| `XmlDocument.TextComesBackEscaped` | src/01_util/XmlParser.cpp:810-816 | the text "a&b" before a child comes back as "a&amp;b", in any format |
| `XmlPrintable.ParsedPrintableIff` | src/01_util/XmlParser.cpp:1436-1447 | a parsed tree can be printed exactly when every attribute in it, at any depth, has a value; without one the printer reads through a null pointer |
| `XmlPrintable.PrintAgainIff` | src/01_util/XmlParser.cpp:1397-1652 | what a printed document is parsed to can be printed again exactly when no attribute value in the document is empty; and then the second text is the first exactly when the document came back unchanged |
| `XmlPrintable.ValueLost` | src/01_util/XmlParser.cpp:1436-1447 | `<a b/>` is parsed to a tree that cannot be printed |
| `Levenshtein.Measure` | src/07_lexical_matcher/FrenchPhoneticString.h:136-167 | the matrix computes the recursive distance for words that fit it, and the largest value for words over 256 symbols |
| `Levenshtein.Fill` | src/07_lexical_matcher/FrenchPhoneticString.h:149-166 | on any matrix large enough the loops compute the distance, and the cells they read and write are exactly those up to the lengths of the two words |
| `Levenshtein.GuardIff` | src/07_lexical_matcher/FrenchPhoneticString.h:139-144 | all the cells touched lie in the matrix of 256 rows and columns exactly when it is not the case that one of two non-empty admitted words has 256 symbols |
| `Levenshtein.RowTouched` | src/07_lexical_matcher/FrenchPhoneticString.h:139-154 | for a word of 256 symbols and itself, which the guard admits, the cell in row 256, column 0 is touched, and is outside the matrix |
| `Levenshtein.Bounds` | src/07_lexical_matcher/FrenchPhoneticString.h:149-166 | the distance lies between the difference of the lengths and the larger length |
| `Levenshtein.Symmetric` | src/07_lexical_matcher/FrenchPhoneticString.h:156-166 | the distance is symmetric |
| `Levenshtein.ZeroIffEqual` | src/07_lexical_matcher/FrenchPhoneticString.h:156-166 | the distance is zero exactly for equal words |
| `Levenshtein.Triangle` | src/07_lexical_matcher/FrenchPhoneticString.h:156-166 | the triangle inequality |
| `Levenshtein.ShortestScript` | src/07_lexical_matcher/FrenchPhoneticString.h:156-166 | there is a script of as many single insertions, deletions and replacements as the distance |
| `Levenshtein.NoShorterScript` | src/07_lexical_matcher/FrenchPhoneticString.h:156-166 | no script of single edits from one word to the other is shorter than the distance |
| `Levenshtein.DistanceIsLeast` | src/07_lexical_matcher/FrenchPhoneticString.h:136-167 | the distance is the least number of single edits |
| `FrenchSentence.StartsWithPhonetic` | src/07_lexical_matcher/FrenchPhoneticString.cpp:867-878 | true exactly for a prefix |
| `FrenchSentence.StartsWithExact` | src/07_lexical_matcher/FrenchPhoneticString.h:123-134 | true exactly for a prefix |
| `FrenchSentence.ScoreWords` | src/07_lexical_matcher/FrenchSentence.cpp:215-236 | the score of a pair of words, with the bonus for a common start and the floor for an equal start of the spelling |
| `FrenchSentence.WordScoreRange` | src/07_lexical_matcher/FrenchSentence.cpp:215-236 | where the distance is measured inside the matrix, a score lies in [0, 1], as the source asserts, and is 1 exactly for equal phonetic forms of fewer than 256 phonemes |
| `FrenchSentence.BestIsFirstMaximum` | src/07_lexical_matcher/FrenchSentence.cpp:208-248 | a word chooses the first of the slots where it scores best among those whose holder scores less |
| `FrenchSentence.MatchingConsistent` | src/07_lexical_matcher/FrenchSentence.cpp:204-251 | at every point of the matching no word holds two slots, and a slot holds the positive score of its word |
| `FrenchSentence.ScoresNeverDrop` | src/07_lexical_matcher/FrenchSentence.cpp:204-251 | a slot once taken stays taken, and its score never falls |
| `FrenchSentence.MatchingPerfect` | src/07_lexical_matcher/FrenchSentence.cpp:204-251 | for sentences compared inside the matrix, the slots with score 1 are exactly those for which a word of the same sound, with as many of that sound before it, has come |
| `FrenchSentence.Compare` | src/07_lexical_matcher/FrenchSentence.cpp:184-286 | the imperative comparison returns the score of the final matching, averaged and divided for words out of order, and the distance of the spellings |
| `FrenchSentence.ScoreRange` | src/07_lexical_matcher/FrenchSentence.cpp:253-284 | the score lies in [0, 1], and is 1 exactly when every slot has score 1 and the words come in order |
| `FrenchSentence.PerfectIff` | src/07_lexical_matcher/FrenchSentence.cpp:184-286 | for sentences compared inside the matrix, the score is 1 exactly when the words of the argument have fewer than 256 phonemes, each has its counterpart, the same occurrence of the same sound, and the counterparts come in order |
| `FrenchSentence.PerfectIsSubsequence` | src/07_lexical_matcher/FrenchSentence.cpp:184-286 | a score of 1 means that the phonetic words of the argument are a subsequence of those of the sentence |
| `FrenchSentence.ComparableSelfIff` | src/07_lexical_matcher/FrenchSentence.cpp:184-286 | a sentence is compared with itself inside the matrix exactly when no word has 256 phonemes and its spelling has not 256 characters |
| `FrenchSentence.SelfScoreIff` | src/07_lexical_matcher/FrenchSentence.cpp:184-286 | a sentence compared with itself stays in the matrix and scores 1 exactly when its words have at most 255 phonemes and its spelling has not 256 characters; a word of 256 phonemes leaves the matrix; with a longer word and none of 256 the score is below 1 |
| `FrenchSentence.LongWords` | src/07_lexical_matcher/FrenchSentence.cpp:184-286 | a sentence of one word of 256 phonemes leaves the matrix when compared with itself, one of 257 phonemes scores below 1 |
| `FrenchSentence.Size` | src/07_lexical_matcher/FrenchSentence.cpp:322-330 | the size is the length of the concatenated phonemes |
| `FrenchSentence.StartsWith` | src/07_lexical_matcher/FrenchSentence.cpp:288-318 | the two nested cursors answer true exactly when the concatenated phonemes of the argument are a prefix of those of the sentence |
| `Crc32Bits.EightStepsLinear` | src/01_util/ZipWriter.cpp:88-95 | eight steps of the division are linear over exclusive or |
| `Crc32Table.TableIsEightSteps` | src/01_util/ZipWriter.cpp:40-84 | each of the 256 constants of the table is the image of its index under eight steps of the reflected polynomial 0xEDB88320 |
| `Crc32.TableStep` | src/01_util/ZipWriter.cpp:91-92 | one look-up equals eight steps bit by bit |
| `Crc32.ComputeCRC32` | src/01_util/ZipWriter.cpp:88-95 | the table-driven loop computes the checksum of section 4.4.7 of PKWARE APPNOTE, bit by bit, for every byte string |
| `ZipWriter.ZipWriter.WriteLittleEndian32` | src/01_util/ZipWriter.cpp:97-103 | writes a four-byte little-endian field, and counts it |
| `ZipWriter.ZipWriter.WriteShort` | src/01_util/ZipWriter.cpp:105-109 | writes a two-byte little-endian field, and counts it |
| `ZipWriter.ZipWriter.WriteString` | src/01_util/ZipWriter.cpp:111-121 | writes the bytes that a 32-bit size can count, and counts them |
| `ZipWriter.ZipWriter.Write` | src/01_util/ZipWriter.cpp:123-154 | appends a local record and remembers where it starts; the count of bytes stays that of the stream modulo 2^32 |
| `ZipWriter.ZipWriter.WriteCentralRecord` | src/01_util/ZipWriter.cpp:165-190 | writes the directory record of one file |
| `ZipWriter.ZipWriter.WriteDirectory` | src/01_util/ZipWriter.cpp:159-210 | the finished stream is the local records, then the directory of the first count records, then the end record that delimits it |
| `ZipWriter.ReadLocalRecord` | src/01_util/ZipWriter.cpp:138-152 | a reader finds a file, with its size and checksum, where its local record stands (section 4.3.7 of PKWARE APPNOTE) |
| `ZipWriter.ReadCentralRecord` | src/01_util/ZipWriter.cpp:165-190 | a reader of the directory follows the stored offset to the file (section 4.3.12 of PKWARE APPNOTE) |
| `ZipWriter.ArchiveRoundTrip` | src/01_util/ZipWriter.cpp:123-210 | a reader that starts from the last 22 bytes recovers exactly the names and contents written, in order, for all that the fields of the format can hold |
| `ZipWriter.ArchiveRoundTripIff` | src/01_util/ZipWriter.cpp:123-210 | the reader recovers what was written exactly when the counts and name sizes fit 16 bits and the file sizes, the records together and the directory fit 32 bits each |
| `ZipWriter.TooManyEntries` | src/01_util/ZipWriter.cpp:201-209 | an archive of 65536 empty entries is not read back |
| `ZipWriter.CountLimit` | src/01_util/ZipWriter.cpp:160 | no archive, whatever its bytes, lists 65536 files or more |
| `MD5.PaddedLength` | src/01_util/MD5.cpp:165-173 | the padded message is a whole number of blocks (sections 3.1 and 3.2 of RFC 1321) |
| `MD5.CountIsLength` | src/01_util/MD5.cpp:123-128 | the two counter words, with their carry, hold eight times the length modulo 2^64 |
| `MD5.IndexFromCount` | src/01_util/MD5.cpp:121 | the low counter word gives the number of waiting bytes |
| `MD5.CountBytes` | src/01_util/MD5.cpp:281-291 | the two counter words, encoded, are the eight-byte length field |
| `MD5.CounterHoldsIff` | src/01_util/MD5.cpp:139-140 | the loop over the blocks of a piece ends behind its last whole block exactly when that block ends by 2^32 - 64, as the unsigned counter wraps around beyond |
| `MD5.LoopRunsAway` | src/01_util/MD5.cpp:139-140 | after one byte, a piece of 2^32 - 1 bytes makes the counter wrap around |
| `MD5.MD5_CTX.constructor` | src/01_util/MD5.cpp:102-109 | a new context has seen the empty message |
| `MD5.MD5_CTX.AddToCount` | src/01_util/MD5.cpp:123-128 | the counter moves by the length of the piece |
| `MD5.MD5_CTX.TransformBlocks` | src/01_util/MD5.cpp:139-140 | the loop runs the block function over all whole blocks of the input |
| `MD5.MD5_CTX.WholeBlocks` | src/01_util/MD5.cpp:131-145 | the waiting bytes and the input give all whole blocks, and the rest is the new tail |
| `MD5.MD5_CTX.Update` | src/01_util/MD5.cpp:116-151 | the state is the fold of the whole blocks of the message so far, the buffer starts with its tail, the counter holds its length; all three for the message with the piece appended |
| `MD5.MD5_CTX.Final` | src/01_util/MD5.cpp:157-182 | the digest is that of RFC 1321 for the message so far, and the context is wiped |
| `MD5.HashPieces` | src/01_util/MD5.cpp:102-182 | however a message is cut into pieces, all of them pieces over which the loop counter holds, the digest is that of the whole message |
| `Alphanum.NumberFrom` | src/01_util/alphanum.hpp:143-159 | a run of digits is read to its end, and its value modulo 2^64 |
| `Alphanum.Characters` | src/01_util/alphanum.hpp:105-130 | the text mode ends with a verdict, at the end of a string, or at two digits |
| `Alphanum.Numbers` | src/01_util/alphanum.hpp:131-169 | the number mode ends with a verdict, or behind two numbers of the same low 64 bits |
| `Alphanum.Compare` | src/01_util/alphanum.hpp:97-175 | for all strings and both settings the one-pass automaton returns what the token sequences determine, wrap-around included |
| `Alphanum.OutcomeIsLexicographic` | src/01_util/alphanum.hpp:97-175 | with numbers below 2^31 the result has the sign of the lexicographic comparison of the token sequences |
| `Alphanum.EquivalentIffSameTokens` | src/01_util/alphanum.hpp:97-175 | with numbers below 2^31 two strings are equivalent exactly when they have the same tokens |
| `Alphanum.SmallNumbersAreOrdered` | src/01_util/alphanum.hpp:310-317 | on strings with numbers below 2^31 both functors are irreflexive, asymmetric and transitive, and equivalence is transitive |
| `Alphanum.BigGoesBothWays` | src/01_util/alphanum.hpp:163-165 | 2147483648 and 0 each come before the other |
| `Alphanum.StrictWeakOrderIff` | src/01_util/alphanum.hpp:455-462 | the functors are strict weak orders on the strings with numbers below a bound exactly when the bound is at most 2^31 |
| `Multipart.FindText` | src/01_util/ParametersMap.cpp:85-88 | the first occurrence of the delimiter, upper and lower case taken as one |
| `Multipart.ReadPart` | src/01_util/ParametersMap.cpp:101-197 | the character loop ends as the state machine does, or fails where a header part is missing or a type is malformed |
| `Multipart.ParametersMap.AddField` | src/01_util/ParametersMap.cpp:199-220 | the content loses one closing line feed and then one carriage return, and goes into the files or into the values |
| `Multipart.ParametersMap.ReadMultipart` | src/01_util/ParametersMap.cpp:79-222 | the constructor fills the two maps part by part |
| `MultipartBody.PartsOfBody` | src/01_util/ParametersMap.cpp:85-91 | a well-formed body is cut at its delimiters and nowhere else |
| `MultipartBody.DispositionRead` | src/01_util/ParametersMap.cpp:134-154 | the disposition line gives back name and file name |
| `MultipartBody.TypeRead` | src/01_util/ParametersMap.cpp:155-158 | the type line gives back the type |
| `MultipartBody.PartComesBack` | src/01_util/ParametersMap.cpp:101-220 | one part gives its field: name, file name, type, and the content with only the closing line break removed |
| `MultipartBody.BodyComesBack` | src/01_util/ParametersMap.cpp:79-222 | a well-formed body (section 4 of RFC 7578) gives back exactly its fields, for contents free of the delimiter and names free of colons, semicolons and line breaks |
| `MultipartBody.FieldComesBack` | src/01_util/ParametersMap.cpp:79-222 | in that form every field can be found, unless a later field of the same kind has its name |
| `MultipartBody.FormIsPlain` | src/01_util/ParametersMap.cpp:134-154 | whatever the body, the names that come out are not empty and free of colons, semicolons and line breaks |
| `MultipartBody.FieldComesBackIff` | src/01_util/ParametersMap.cpp:79-222 | a field comes back exactly when it has a name and its names are free of colons, semicolons and line breaks; quotes do not matter |
| `Uri.Encode` | src/01_util/URI.cpp:39-58 | letters and digits stay, every other byte becomes a percent sign and two hexadecimal digits |
| `Uri.Decode` | src/01_util/URI.cpp:62-106 | the index loop decodes escapes, plus signs and skipped %u escapes as the recursive decoder does, and fails on the same texts |
| `Uri.DecodeInvertsEncode` | src/01_util/URI.cpp:39-106 | decoding undoes encoding for every byte string (section 2.2 of RFC 1738) |
| `QueryString.ReadQuery` | src/01_util/ParametersMap.cpp:54-75 | the constructor from a query keeps the first value of each name |
| `QueryString.PmToString` | src/00_framework/ParametersMapField.hpp:56-73 | the printer joins the items in the order of the map |
| `QueryString.NamesAreFree` | src/01_util/ParametersMap.cpp:65-68 | no name read from a query holds a separator |
| `QueryString.RoundTripIff` | src/01_util/ParametersMap.cpp:54-75 | a map printed and read back is the same map exactly when none of its keys holds an ampersand or an equals sign, for all byte values |
| `QueryString.AmpersandIsLost` | src/01_util/ParametersMap.cpp:54-75 | the key "a&" does not come back |
| `Base64.Encode` | src/01_util/Base64.cpp:46-86 | the group loop and the tail write the encoded text |
| `Base64.Decode` | src/01_util/Base64.cpp:98-137 | the group loop and the tail write the decoded bytes, up to the first character that is no digit |
| `Base64.DecodeInvertsEncode` | src/01_util/Base64.cpp:46-137 | decoding undoes encoding for every byte string (section 4 of RFC 4648) |
| `Base64.DecodedThen` | src/01_util/Base64.cpp:98-137 | what follows an encoded text is decoded with it after whole groups, and ignored after padding |
| `Base64.JoinIff` | src/01_util/Base64.cpp:46-137 | two encoded texts put end to end decode to the joined bytes exactly when the first counts whole groups or the second is empty |
| `Base64.Shape` | src/01_util/Base64.cpp:67-83 | the text counts four characters for each started group of three, padded at its end by the number of missing bytes |
| `Registry.Registry.Add` | src/01_util/Registry.h:294-311 | refuses key 0 and a key in use, otherwise registers the object |
| `Registry.Registry.Replace` | src/01_util/Registry.h:315-322 | replaces only an object that is there |
| `Registry.Registry.Remove` | src/01_util/Registry.h:326-341 | refuses key 0 and an unknown key, otherwise removes that key alone |
| `SyncPolicy.Policy.TryAdd` | src/10_db/ConditionalSynchronizationPolicy.hpp:193-218 | the filter is asked before the object is unlinked; a success is the effect of the row on the view, a failure touches no other key |
| `SyncPolicy.Policy.TryUpdate` | src/10_db/ConditionalSynchronizationPolicy.hpp:241-265 | the object is unlinked before the filter is asked; a success is the effect of the row on the view, a failure touches no other key |
| `SyncPolicy.Policy.PutRow` | src/10_db/ConditionalSynchronizationPolicy.hpp:219-226 | a row that fails leaves its key unloaded; an object that stays registered is the same object |
| `SyncPolicy.Policy.DropRow` | src/10_db/ConditionalSynchronizationPolicy.hpp:287-298 | a deleted row is unlinked and removed, unless the call throws |
| `SyncPolicy.Policy.RowsAdded` | src/10_db/ConditionalSynchronizationPolicy.hpp:185-229 | the rows act on the view one after the other, and a key loaded all along keeps its object |
| `SyncPolicy.Policy.RowsUpdated` | src/10_db/ConditionalSynchronizationPolicy.hpp:233-276 | the rows act on the view one after the other, and a key loaded all along keeps its object |
| `SyncPolicy.Policy.RowsRemoved` | src/10_db/ConditionalSynchronizationPolicy.hpp:280-300 | the deletions act on the view one after the other, and a key loaded all along keeps its object |
| `SyncPolicy.Policy.LoadCurrentData` | src/10_db/ConditionalSynchronizationPolicy.hpp:131-153 | the rows of the table that pass the filter are added |
| `SyncPolicy.Policy.Run` | src/10_db/ConditionalSynchronizationPolicy.hpp:131-300 | after any history of calls the view is what the events make of it, and a key loaded all along keeps its object |
| `SyncPolicy.HoldsLatest` | src/10_db/ConditionalSynchronizationPolicy.hpp:185-300 | the registry holds exactly the keys whose latest event is a row that passes the filter and loads without exception, each with the content of that row |
| `SyncPolicy.InStepIff` | src/10_db/ConditionalSynchronizationPolicy.hpp:287-298 | that holds after every event of a history exactly when no deletion fails to unlink a loaded object |
| `SyncPolicy.StuckDeletion` | src/10_db/ConditionalSynchronizationPolicy.hpp:287-298 | a row that loads, then its deletion with an exception while unlinking: the object stays loaded |
| `SyncPolicy.SelectingIsFiltering` | src/10_db/ConditionalSynchronizationPolicy.hpp:131-153 | from an empty registry, selecting the rows that pass the filter leaves the same view as adding the whole table |
| `SharedMutex.SharedRecursiveMutex.ReleaseWaiters` | src/01_util/shared_recursive_mutex.hpp:64-68 | wakes one sleeping writer if there is one, and every sleeping reader |
| `SharedMutex.SharedRecursiveMutex.LockShared` | src/01_util/shared_recursive_mutex.hpp:82-95 | one turn of the loop: a wait, or one more read lock |
| `SharedMutex.SharedRecursiveMutex.UnlockShared` | src/01_util/shared_recursive_mutex.hpp:97-116 | one read lock less; the last one releases the waiters |
| `SharedMutex.SharedRecursiveMutex.Lock` | src/01_util/shared_recursive_mutex.hpp:118-129 | one turn of the loop: a wait, or the write lock |
| `SharedMutex.SharedRecursiveMutex.Unlock` | src/01_util/shared_recursive_mutex.hpp:131-137 | the write lock is given up and the waiters are released |
| `SharedMutex.RunKeeps` | src/01_util/shared_recursive_mutex.hpp:82-137 | in every state of every run that holds fewer than 2^32 read locks: no writer with readers, at most one writer, no upgrade, a free mutex with a sleeping writer has a woken one, no reader sleeps without a writer |
| `SharedMutex.ReaderNeverBlocks` | src/01_util/shared_recursive_mutex.hpp:87-94 | a thread that holds a read lock gets another one at once |
| `SharedMutex.NobodyForgotten` | src/01_util/shared_recursive_mutex.hpp:64-68 | when the mutex is free and no thread is waking up, no thread sleeps |
| `SharedMutex.WriterAmongReaders` | src/01_util/shared_recursive_mutex.hpp:94 | after 2^32 read locks the counter reads 0 and a writer comes in |
| `SharedMutex.SafeIff` | src/01_util/shared_recursive_mutex.hpp:51 | all runs that keep the read locks below a bound are safe exactly when the bound is at most 2^32 |
| `Monitors.NotifyOne` | src/01_util/ConcurrentQueue.hpp:48 | one of the sleeping threads wakes up, if there is one |
| `ConcurrentQueue.ConcurrentQueue.Push` | src/01_util/ConcurrentQueue.hpp:43-47 | the item goes to the end of the queue, and a notification is due |
| `ConcurrentQueue.ConcurrentQueue.NotifyAfterPush` | src/01_util/ConcurrentQueue.hpp:48 | the notification that was due is given |
| `ConcurrentQueue.ConcurrentQueue.TryPop` | src/01_util/ConcurrentQueue.hpp:57-68 | the front item is taken, or nothing from an empty queue |
| `ConcurrentQueue.ConcurrentQueue.WaitAndPop` | src/01_util/ConcurrentQueue.hpp:70-80 | one turn of the loop: a wait, or the front item |
| `ConcurrentQueue.RunKeeps` | src/01_util/ConcurrentQueue.hpp:43-80 | in every state of every run, wakeups without notification included: what was pushed is what was popped followed by what is there, and while a consumer sleeps there are at most as many items as notifications due and consumers waking up |
| `ConcurrentQueue.SleepsOnEmpty` | src/01_util/ConcurrentQueue.hpp:70-76 | when no notification is due and no consumer is waking up, a consumer sleeps only on an empty queue |

## Left out

- XmlNode.XMLNode.AddChild: does not model the handle that the new child shares with its parent; the child is added as a finished record once it is parsed, where the source adds it empty and fills it, so aliasing and reference counts are not captured.
- XmlNode.ParseDocument: without the tag argument of parseString, which picks a node from the parsed tree, and without line and column numbers of an error.
- XmlDocument.ParsePrinted: outside its requires are names that read as an unformatted section (PRE, Script), texts with white space at their ends or next to one another, texts or values with a NUL, and declarations without attributes or with no value in the last one, whose last word takes the question mark.
- XmlPrintable.PrintAgainIff: for the trees that printed documents are parsed to; other parsed trees, as those with an empty section, are covered by `ParsedPrintableIff` alone.
- XmlWriter.CreateXMLString: does not model the assertion that the text is not empty, nor a missing node; a tree with an attribute without value is outside its requires, as the source then reads through a null pointer.
- XmlEscape.FromXMLString: reading past the terminator after an unknown entity gives NUL in the model.
- The approximate parsing branch, wide characters, growth of the arrays in steps, and the int width of order entries.
- FrenchSentence.Compare: scores are exact reals, so rounding of double is not captured.
- FrenchSentence.MatchingPerfect: for sentences whose comparison stays in the matrix and whose argument has words of fewer than 256 phonemes, as longer ones have no measured distance.
- The rules that turn a spelling into phonemes, the aliases and the cutting of a sentence into words: a word is any phonetic form and spelling.
- LexicalMatcher, which sorts and truncates around the comparison.
- ZipWriter.ZipWriter.WriteDirectory: without the console output.
- MD5.HashPieces: a piece on which the loop counter wraps around is outside its requires, as the source then runs past the end of the piece.
- The block function of the hash is written out with its constants and no property of it is claimed; hexadecimal output and file hashing are left out.
- Base64.Decode: lengths are not bounded by int, and letters and digits are those of the C locale.
- Alphanum.Compare: the locale variant, and the conversion of other types to strings.
- Multipart.ParametersMap.ReadMultipart: fails in the model where the source throws, reads a header part that is not there, or looks at the last character of an empty content.
- Parameters with dates, geometry and sub-maps, and the other serializations of a parameter map.
- QueryString.PmToString: takes the keys in any order, of which the order of the source's map is one.
- SyncPolicy.Policy.TryAdd: the calls into the object are a load and an unlink that touch only it, and whether each throws is a parameter; real SQL, logging and the lock of the registry are left out, and the WHERE clause is taken as the filter.
- SharedMutex.RunKeeps: safety and wakeups only; fairness and native scheduling are left out.
- ConcurrentQueue.RunKeeps: no claim that a consumer is ever scheduled.
- HTML, mail, sockets, coordinate systems, OSM consolidation, fields, factories, log and identifiers.
