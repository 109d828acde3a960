# A verified model of the web server's text components

The server has a configuration language, a Markdown renderer, an HTTP request type and a set of
request counters. This project models them in Dafny and proves what they promise: which inputs they
accept, what they build, that printing and reading are inverse where they are, that the Markdown
passes lose nothing and write balanced tags, and where the code does something else than its
comments say. `dafny verify dfyconfig.toml` checks everything.

Every part that works by changing state is modelled twice. A method or class with the original's
loops, fields and stacks does the work in place, and its `ensures` ties the result to a function on
values; the laws are then proved about that function, for all inputs.

## Components

**Configuration language** (`CharStreams`, `ConfigLexer`, `ConfigTree`, `ConfigAutomaton`,
`ConfigGrammar`, `ConfigRoundTrip`, `ConfigTrailing`, `ConfigComments`, `ConfigLayout`,
`ConfigParser`). The lexer is a five-state machine with one character of pushback; it is proved to
compute maximal munch. A comment reaches to the end of its line and changes nothing, wherever a word
is closed. The token automaton with its stack of blocks and bracket counter accepts exactly `config
= stmt+`, `stmt = WORD+ (";" | "{" stmt* "}")` and builds that grammar's tree. Printing and parsing
are inverse exactly on the printable trees, and every tree that parsing returns is printable. A text
loses its last word exactly when nothing closes that word, and a line end brings it back. Every line
of a printed tree is indented by the number of blocks open around it. The parser proper works on
linked objects; a representation predicate ties them to the values.

**Emphasis** (`EmphasisTokens`, `EmphasisMatching`, `EmphasisPairing`, `EmphasisTermination`,
`EmphasisNesting`, `EmphasisHtml`, `EmphasisShift`, `EmphasisTriples`, `EmphasisPairs`,
`EmphasisResolver`). The first pass pairs markers greedily and splits markers of size 3 while it
walks over them; the second pass unmatches crossing pairs with a lazily cleaned stack. `Walk` and
`Second` are the passes on values, `EmphasisResolver` is the same on marker objects with match
pointers. Proved: pairing is sound, maximal and greedy; the texts, whole and in order, and the
marker characters between them are conserved; the second pass removes exactly the crossed pairs and
never looks at an empty stack; the tags in the written text balance, whatever the texts hold; both
pieces of a split marker find their partners; and pair ids are names only, so a list behind a closed
front is resolved and written as if it stood alone. The first pass is also given as a small-step
machine of its two loops, which makes no assumption on how it ends: it ends exactly when in none of
its steps an opener of size 3 looks at an unmatched closer of size 3 and of the other character.
`***` opened and `___` closed is a list of two markers on which that happens, and two conditions
that can be read off a list say of many others whether it does.

**Placeholders and encoders** (`Numerals`, `Placeholders`, `WellFormedText`, `Hiding`, `CodeSpans`,
`TagsAndLinks`, `RawMarks`, `Encoders`, `EncodedText`, `HtmlText`, `LinkReading`, `TagReading`).
Passes replace pieces of the text by `\x01@n@name\x01`, where n indexes an append-only table; later
passes restore or expand them. A text is well-formed when each mark belongs to a placeholder whose
item exists. Every pass keeps that, so the index assertions never fail; and every placeholder stands
for its own item, because the text after a pass restores to an independent reading of the text
before it, in which the matches are replaced in place. Hiding code and escapes is invisible to
restoring exactly when no double-backtick span is hidden. Encoding is invertible exactly when no
ampersand that is left alone begins an entity, and it leaves an ampersand that begins none exactly
where the text has one that it takes for the front of an entity. What is written is read back by
readers that know nothing of the writers: one takes quoted attribute values out of a tag, another
drops the tags and decodes the entities. So a link says its address and title and an image its
alternative text, a tag or an attribute comes out as it went in exactly when it holds nothing to
encode, and brackets that resolve to nothing stay. A mark is left in the result exactly when a match
is stored as it stands with a placeholder in it, or an alternative text, address or title holds one.
A regular expression is a parameter: a function from the remaining text to the next match, of which
only the shape of its matches is assumed.

**From source text to HTML** (`SpanTokens`, `SpanWriting`, `SpanElements`, `SpanPairs`,
`SpanReading`, `SpanRendering`, `SpanResolver`). The whole of a text's way: the hiding passes, the
loop that cuts the text at its markers, the two emphasis passes, the loop that expands the texts
between the markers, and the writer. Every reference that any of them reads has its item; the source
forms of the finished tokens joined are the restored text exactly when no marker mixes its two
characters; and the emphasis tags in the HTML are those of the markers, which balance, and those
that the stored markup brings itself. Expanding gives each placeholder the very table entry or
character that its index selects. A run that is found as an opener, and next as a closer, comes out
as a pair of tags around what stands between. Read back, the HTML says the texts, the escaped
characters and the contents of the code spans in their order, exactly when no ampersand that the
encoder leaves alone begins an entity; and a text with one span of any kind in it is written as
said, letter by letter.

**Requests** (`Requests`, `RequestDrift`, `RequestText`, `RequestParser`). Printing a request and
parsing it again does not give it back: the last field (or the version) gains a carriage return and
the body gains a line break. The drift is exact, for any number of rounds, and it happens for
precisely the requests whose printed lines can be told apart: those with a verb, no space in path or
version, no colon and space in a key, and no line break in a line. The parser returns precisely
those of them whose last line ends in a carriage return, since it takes the one in front of the
empty line along. Each of them is parsed from exactly one text, which is written out here.

**Lines and code blocks** (`LineReader`, `CodeBlocks`). The line reader gives the same document for
every line-ending style, and tabs end at the tab stops. A code block is the longest run of blank and
indented lines that ends in an indented one, and indenting its code gives its source text back.

**Counters** (`ServerStatus`, `ServerRuns`). Every counter is the number of logged events with its
key; in every interleaving of the threads' single moves each snapshot agrees with the events logged
before it, and its total with both sums.

## Where the code and its description differ

- The first emphasis pass never ends when an opener of size 3 meets an unmatched closer of size 3 and
  of the other character (`EmphasisTermination.MixedTriplesRunForever`, `FirstTriplesMixed`,
  `EndsExactly`).
- A word at the very end of a configuration file is reported as the end of the file, so it is dropped
  silently behind a semicolon (`ConfigTrailing.TrailingWordExample`, `TrailingWordDropped`,
  `NothingDropped`). A carriage return is white space between words but part of a word
  (`ConfigLexer.CarriageReturns`).
- A code span in double backticks is restored with single backticks and without its inner spaces
  (`CodeSpans.DoubleSpansAreLost`, `DoubleSpanRequoted`, `DoubleSpanExample`).
- A text in angle brackets that is neither an address nor a known tag is stored as it stands, and so are
  an image's alternative text, address and title and a link's address and title, all with the
  placeholders that earlier passes left in them; these are never looked at again
  (`RawMarks.MarksSurvive`; the text `<foo\*>` of `RawMarks.RawMarkExample`).
- An angle bracket in a tag's attribute is encoded twice, once when the attribute is hidden and once when
  the tag that it is restored into is stored (`TagReading.BracketTwiceEncoded`; `TagReading.TagStored` and
  `TagsStay` say which tags and attributes come out as they are).
- An image encodes neither its address nor its texts, so a quotation mark in one of them ends it early
  (`LinkReading.ImageReads`).
- A marker within a word that mixes asterisks and underscores is written with its first character only
  (`SpanTokens.MixedRunExample`, `TokenizedComesBack`).
- Encoding plain text is not invertible: `&` and `&amp;` come out the same (`Encoders.TextCollides`;
  `Encoders.EncodedComesBack` says which texts come back).
- The expression that recognises an entity is anchored in its first alternative only, so a numeric
  entity anywhere later in the text leaves an ampersand bare (`Encoders.BareAmpExample`); and the
  anchor matches behind every line end, so does `&amp;` at the start of a later line
  (`Encoders.BareAmpLineExample`). `Encoders.BareAmpsLeft` says exactly when. The model follows the code.
- Reprinted requests drift as described above (`RequestDrift.RoundsDrift`). A test of the reverse proxy
  records the extra characters as an issue (reverse_proxy_handler_test.cc:92-101).
- A request whose text begins with a line break is rejected (`RequestDrift.BreakFirstIsRejected`).

## Model

| member | source | states |
|---|---|---|
| CharStreams.CharStream.Get | config_parser.cc:76-79 | Reading one character moves on by one; reading past the end fails and makes every later read fail. |
| ConfigLexer.ParseToken | config_parser.cc:71-151 | One call delivers the kind, the text and the unread rest that maximal munch over the unread text prescribes, and the stream is exhausted exactly at an end-of-file or error token. |
| ConfigLexer.MachineMunches | config_parser.cc:71-151 | The five-state machine with pushback, started between words, computes maximal munch for every text. |
| ConfigLexer.LexConsumes | config_parser.cc:71-151 | Every token other than end of file and error consumes input in spite of the pushback: the rest is a strictly shorter suffix. |
| ConfigLexer.LexedWordIsLexable | config_parser.cc:92-142 | Every word the lexer can return is a plain word or a quoted string without an inner matching quote, so it survives printing. |
| ConfigLexer.LexReadsWordBack | config_parser.cc:92-142 | A lexable word in front of a character that ends words is read back whole, and nothing behind it is consumed. |
| ConfigLexer.CarriageReturns | config_parser.cc:105-134 | A carriage return in front of a token is skipped, one inside a plain word becomes part of the word. |
| ConfigComments.PlainWords | config_parser.cc:78-141 | The plain words by their characters: no blank, tab, line end, semicolon or bracket in them, and neither a carriage return, a number sign nor a quotation mark at the front. |
| ConfigComments.SkipsSpace | config_parser.cc:102-106 | The characters that are skipped in front of a token are exactly the blank, the tab, the line end and the carriage return. |
| ConfigComments.CommentIsSkipped | config_parser.cc:87-90 | Wherever the parser stands, a number sign with any text up to a line end changes nothing: verdict and tree are those of what follows. |
| ConfigComments.CommentAnywhere | config_parser.cc:127-132 | A comment may be put behind any text whose last word is closed, in front of any rest: the verdict and the tree of an accepted text stay the same. |
| ConfigComments.OpenCommentIsTheEnd | config_parser.cc:144-150 | A comment that runs into the end of the file is the end of the file. |
| ConfigComments.OpenQuoteIsRejected | config_parser.cc:144-148 | A quotation mark that is never closed, behind any text whose last word is closed, makes the parser reject. |
| ConfigTree.LexableFromYield | config_parser.h:16-47 | A tree whose token sequence holds only lexable words is lexable at every level. |
| ConfigAutomaton.StepKeepsInv | config_parser.cc:153-239 | Every continuing step keeps the parser's invariant: stack height is brackets plus one, each stacked block is owned by the last statement of the one below, and after a word the current statement has words and no child. |
| ConfigAutomaton.StepReads | config_parser.cc:153-239 | Each continuing step adds exactly its own token to what the stack has read. |
| ConfigAutomaton.AcceptedIsYield | config_parser.cc:153-239 | A run that accepts has built a tree that derives exactly the tokens read. |
| ConfigGrammar.AcceptsExactlyTheGrammar | config_parser.cc:153-239 | A comment-free token sequence is accepted with a given tree if and only if the tree is a non-empty derivation of the grammar and derives that sequence. |
| ConfigGrammar.YieldIsInjective | config_parser.cc:153-239 | The grammar is unambiguous: different derivable trees derive different token sequences. |
| ConfigGrammar.StepKeepsDerivable | config_parser.cc:178-225 | No step ever leaves a statement without words in the tree under construction. |
| ConfigGrammar.RunRebased | config_parser.cc:153-239 | A run that starts with statements already in the configuration accepts the same token sequences and puts its tree behind them. |
| ConfigRoundTrip.PrintThenParse | config_parser.cc:23-55 | Printing at any depth and parsing gives back the same tree if and only if the tree is non-empty with non-empty statements of lexable words. |
| ConfigRoundTrip.ParsePrintParse | config_parser.cc:153-247 | Every accepted text, printed from its tree at any depth, is accepted again with the same tree. |
| ConfigRoundTrip.AcceptedTexts | config_parser.cc:153-247 | A text is accepted if and only if it lexes to its end without an error and its tokens form a sentence of the grammar. |
| ConfigRoundTrip.ScanPrinted | config_parser.cc:23-55 | In any context the printed form of a lexable tree lexes to exactly the tokens that the tree derives. |
| ConfigRoundTrip.ParseIntoUsedTree | config_parser.cc:153-247 | Parsing a text into a configuration that holds statements gives the same verdict and appends the parsed tree. |
| ConfigLayout.PrintIsLaidOut | config_parser.cc:32-55 | Read line by line, with a count of its brackets, every line of a printed tree whose words hold no line end is indented by exactly the number of blocks open around it. |
| ConfigLayout.PrintExample | config_parser.cc:32-55 | A block with one statement, to the letter. |
| ConfigTrailing.NothingDropped | config_parser.cc:144-150 | An accepted text is still accepted with a line end behind it, and with the same tree, if and only if the last call of the lexer drops no word. |
| ConfigTrailing.TrailingWordDropped | config_parser.cc:144-150 | Any plain word put behind an accepted text that is closed is dropped silently: verdict and tree are those of the text without it. |
| ConfigTrailing.LineEndCloses | config_parser.cc:133-150 | A line end behind a text that lexes to its end brings back exactly the word that was dropped, and no other token. |
| ConfigTrailing.LineEndSaves | config_parser.cc:144-150 | A file that ends with a line end loses no word. |
| ConfigTrailing.TrailingWordExample | config_parser.cc:144-150 | The text `a;b` is accepted with the single statement `a`. |
| ConfigParser.NginxConfigStatement.ToString | config_parser.cc:32-55 | The printer of a linked statement writes the printed form of the tree it represents, indented by the depth. |
| ConfigParser.NginxConfig.ToString | config_parser.cc:23-29 | The printer of a linked configuration writes the printed form of the tree it represents. |
| ConfigParser.React | config_parser.cc:170-239 | The reaction to one token moves the linked stack and the bracket counter as the automaton does, keeps the tree represented, and touches no finished part of it. |
| ConfigParser.Turn | config_parser.cc:164-239 | One turn of the loop consumes input or stops, and what is still to come has the outcome of the whole. |
| ConfigParser.Parse | config_parser.cc:153-247 | The linked parser ends, accepts exactly the texts that the automaton accepts, and leaves in the configuration object exactly that tree, on success and on failure. |
| EmphasisMatching.ScanWeight | markdown-tokens.cc:515-558 | The list grows while it is walked, but its weight (tokens plus three for each splittable marker) never does. |
| EmphasisMatching.WalkConserves | markdown-tokens.cc:509-560 | The first pass keeps what the list stands for: its texts, whole and in order, and between them each marker as its size in characters, a disabled one as nothing. |
| EmphasisPairing.WalkPairs | markdown-tokens.cc:509-560 | Each matched opener has one later closer with its id, character and size; ids grow from left to right and none is used twice. |
| EmphasisPairing.WalkKeepsSane | markdown-tokens.cc:510-560 | All marker sizes stay within 1 to 3, and disabled markers are never matched. |
| EmphasisPairing.WalkIsMaximal | markdown-tokens.cc:509-560 | After the first pass no unmatched opener is followed by an unmatched closer of its kind, nor by one of size 3; and one of size 3 is followed by no unmatched closer at all. So nothing is left that could match, whole or after a split. |
| EmphasisPairing.WalkIsGreedy | markdown-tokens.cc:509-560 | Each matched opener has the nearest closer that the openers before it left over. |
| EmphasisNesting.GreedyByPosition | markdown-tokens.cc:515-558 | Whatever stands between two partners could not have closed the opener or was taken by an earlier one. |
| EmphasisTermination.EndsExactly | markdown-tokens.cc:509-560 | The first pass ends if and only if in no step of its two loops an opener of size 3 looks at an unmatched closer of size 3 and of the other character. |
| EmphasisTermination.EndsWithWalk | markdown-tokens.cc:509-560 | When the two loops end they leave the list that the first pass on values computes, and they end exactly when that is defined. |
| EmphasisTermination.MeetingNeverEnds | markdown-tokens.cc:519-556 | A run that comes to such a meeting never ends: from there on a closer is split into itself. |
| EmphasisTermination.MixedTriplesRunForever | markdown-tokens.cc:519-556 | On an opener of size 3 in asterisks and a closer of size 3 in underscores the first pass does not end. |
| EmphasisTermination.NoMixedTriplesEnds | markdown-tokens.cc:509-560 | The pass ends on every list in which no opener of size 3 stands before a closer of size 3 and of the other character. |
| EmphasisTermination.FirstTriplesMixed | markdown-tokens.cc:509-560 | The pass does not end on any list whose first opener has size 3 and whose first closer behind that opener has size 3 and the other character. |
| EmphasisNesting.TopIsSafe | markdown-tokens.cc:562-580 | Whenever the second pass reaches a matched closer its stack has a top, and the top is still matched. |
| EmphasisNesting.SecondIsCrossed | markdown-tokens.cc:562-580 | The lazily cleaned stack unmatches exactly the closers at which a later opener still waits. |
| EmphasisNesting.UnnestNests | markdown-tokens.cc:562-580 | After the second pass every matched closer meets its own partner as the innermost open bracket, and none stays open. |
| EmphasisNesting.NestedIsKept | markdown-tokens.cc:562-580 | A list whose pairs already nest is left as it is. |
| EmphasisNesting.UnnestRemovesExactlyTheCrossed | markdown-tokens.cc:562-580 | A pair is unmatched if and only if another pair opens inside it and closes after it; nothing else changes. |
| EmphasisNesting.DropConserves | markdown-tokens.cc:571-573 | Unmatching any pairs keeps what the list stands for. |
| EmphasisNesting.DropPairs | markdown-tokens.cc:571-573 | Unmatching whole pairs leaves the remaining pairs soundly paired. |
| EmphasisNesting.PartnersExist | markdown-tokens.h:345-361 | Every matched marker of a sound list has a partner on its proper side. |
| EmphasisHtml.HtmlIsTagsOrText | markdown-tokens.cc:202-213 | A matched marker writes exactly its one or two tags, another one its characters, and a text its encoding. |
| EmphasisHtml.FirstPass | markdown-tokens.cc:509-560 | On any untouched list on which it ends, the first pass is sound by position, maximal and greedy, and keeps what the list stands for. |
| EmphasisHtml.BothPasses | markdown-tokens.cc:509-580 | After both passes the matched markers nest, the tags of the whole list balance with every end tag closing its own start tag, and the list stands for the same texts and marker characters in the same order. |
| EmphasisHtml.WrittenHtmlBalances | markdown-tokens.cc:202-748 | The emphasis tags that stand in the written text of a resolved list balance, whatever its texts hold, if no marker is made of angle brackets. |
| EmphasisHtml.WrittenTags | markdown-tokens.cc:202-748 | The emphasis tags that stand in the written text of any list are exactly those that its matched markers write, in their order. |
| EmphasisHtml.SecondPassIsIdempotent | markdown-tokens.cc:562-580 | A second run of the second pass changes nothing. |
| EmphasisShift.WalkUp | markdown-tokens.cc:508-560 | A first pass that starts with a higher id does the same under higher ids, and ends on the same lists. |
| EmphasisShift.UnnestUp | markdown-tokens.cc:562-580 | The second pass commutes with renaming the ids upwards. |
| EmphasisShift.ResolvedUp | markdown-tokens.cc:508-580 | An untouched list that is resolved from a higher id on differs in the ids alone and is written the same. |
| EmphasisTriples.TripleClosesTwo | markdown-tokens.cc:519-556 | Two openers whose sizes add up to 3, with only text around them, in front of a closer of size 3 and any rest: the pass ends exactly if it ends on the rest; both openers are closed by the pieces, the later one first, both pairs survive the second pass, and the HTML is that of the two nested pairs followed by that of the rest resolved alone. |
| EmphasisTriples.TwoCloseTriple | markdown-tokens.cc:519-556 | An opener of size 3, with only text around it, in front of two closers whose sizes add up to 3 and any rest: the pass ends exactly if it ends on the rest; the inner piece takes the nearer closer and the outer piece the other, both pairs survive the second pass, and the HTML is that of the two nested pairs followed by that of the rest resolved alone. |
| EmphasisTriples.NestedFrontKept | markdown-tokens.cc:562-580 | The second pass leaves nested pairs at the front of a list alone and treats what stands behind them as if they were not there. |
| EmphasisTriples.NestWritten | markdown-tokens.cc:737-748 | Of two nested pairs the inner one is written within the outer one, with the texts in their places. |
| EmphasisPairs.PairResolved | markdown-tokens.cc:509-580 | An opener and a closer of the same character and size, with only text in front of each, and any rest: the pass ends exactly if it ends on the rest, the two become a pair, and the rest is resolved as if it stood alone. |
| EmphasisResolver.BoldOrItalicMarker.WriteAsHtml | markdown-tokens.cc:737-748 | A marker object writes what its value writes. |
| EmphasisResolver.SplitAt | markdown-tokens.cc:522-556 | Splitting disables the marker of size 3 and puts two fresh markers of the leftover and the wanted size behind it, leaving all tokens before it in place. |
| EmphasisResolver.FindCloser | markdown-tokens.cc:519-558 | The inner loop on objects ends where the scan on values does, with the same pairs and splits and symmetric match pointers. |
| EmphasisResolver.MatchMarkers | markdown-tokens.cc:509-560 | On every list on which it ends, the first pass on objects leaves the list that the pass on values computes, with symmetric match pointers. |
| EmphasisResolver.UnmatchCrossing | markdown-tokens.cc:562-580 | The second pass on objects, with its stack of marker pointers, leaves the un-nested list; its uses of the stack's top are safe. |
| EmphasisResolver.ResolveEmphasis | markdown-tokens.cc:509-580 | Both passes on objects: the matched markers nest, the written tags balance, and the list stands for the same texts and characters. |
| EmphasisResolver.WriteTokens | markdown-tokens.cc:685-690 | Writing a list of token objects gives the HTML of its values, texts encoded. |
| Numerals.ReadPrint | markdown-tokens.cc:593-657 | Reading a printed table index or character code gives the number back, in base 10 and in base 16. |
| Placeholders.RestoreProcessedItems | markdown-tokens.cc:626-657 | The restoring loop puts every placeholder's source form back; every table index it meets is in range. |
| Placeholders.EncodeProcessedItems | markdown-tokens.cc:593-624 | The expanding loop cuts the text into raw, escaped and stored tokens: the stored ones are the entries that the placeholders select, the escaped ones the selected characters, and the raw ones the text between; their source forms joined are the restored text, and every index it meets is in range. |
| Placeholders.EncodeAgreesWithRestore | markdown-tokens.cc:593-657 | For every text with valid references, expanding and restoring agree token by token on what the text stands for. |
| Placeholders.EncodedParts | markdown-tokens.cc:593-624 | The stored tokens are the table entries whose indices the placeholders carry, the escaped ones the characters that the escape indices select, each in order; the raw ones are not empty and joined are the text between the placeholders. |
| WellFormedText.CutFlat | markdown-tokens.cc:593-657 | The placeholder expression finds in a built text exactly the placeholders it was built from. |
| WellFormedText.Append | markdown-tokens.cc:626-657 | Restoring distributes over joining well-formed texts. |
| WellFormedText.Grows | markdown-tokens.cc:626-657 | Appending to the table changes nothing in what an older text restores to. |
| WellFormedText.CutAt | markdown-tokens.cc:626-657 | A well-formed text may be cut at any character that cannot stand in a placeholder, and restoring respects the cut. |
| Hiding.ProcessEscapedCharacters | markdown-tokens.cc:301-324 | The escape loop replaces each backslash with an escapable character by the placeholder of that character. |
| Hiding.EscapesAreInvisible | markdown-tokens.cc:301-324 | Hiding escapes keeps a text well-formed and does not change what it restores to. |
| Hiding.NoEscapeLeft | markdown-tokens.cc:301-324 | After the escape pass no backslash stands in front of an escapable character any more. |
| CodeSpans.SpansRestore | markdown-tokens.cc:273-299 | A pass adds one entry for each match and keeps the old ones; its text restores to the text before it, restored, with each match in single backticks. |
| CodeSpans.HidePass | markdown-tokens.cc:273-299 | One pass of the span loop appends one table entry for each match and leaves the text with its placeholders. |
| CodeSpans.ProcessCodeSpans | markdown-tokens.cc:273-299 | The double-backtick pass and then the single-backtick pass, on one growing table. |
| CodeSpans.SingleSpansAreInvisible | markdown-tokens.cc:273-299 | Hiding single-backtick spans keeps old entries and well-formedness and does not change what the text restores to. |
| CodeSpans.DoubleSpansAreLost | markdown-tokens.cc:679-681 | The double-backtick pass is invisible to restoring if and only if it matches nothing. |
| CodeSpans.DoubleSpanRequoted | markdown-tokens.cc:273-299 | A text with one double-backtick span comes back with single backticks and without the inner spaces. |
| CodeSpans.DoubleSpanExample | markdown-tokens.cc:273-299 | A text, and a matcher of the assumed shape, with which that happens. |
| CodeSpans.HidingIsInvisible | markdown-tokens.cc:273-324 | Code spans and escapes hidden in a text without marks restore to the text itself if and only if there is no double-backtick span. |
| TagsAndLinks.ProcessHtmlTagAttributes | markdown-tokens.cc:226-271 | The attribute loops produce the text and the table of the pass on values. |
| TagsAndLinks.TagsOk | markdown-tokens.cc:226-271 | The attribute pass keeps old entries, every placeholder it leaves has its item, and the text restores to the source with the attributes of its known tags encoded in place. |
| TagReading.TagsStay | markdown-tokens.cc:226-271 | The text with its attributes encoded in place is the text itself if and only if no attribute of a known tag holds an angle bracket or an ampersand that is taken for a raw one; otherwise it is longer. |
| TagReading.UnknownTagsStay | markdown-tokens.cc:239-262 | Tags of unknown names are left alone, attributes and all. |
| TagReading.KnownTagHidden | markdown-tokens.cc:239-258 | The one attribute of a known tag is replaced by the placeholder of the first entry, which decodes to it, keeps its quotation marks and holds no angle bracket. |
| TagReading.BracketTwiceEncoded | markdown-tokens.cc:252-452 | An angle bracket that is encoded as an attribute and then as part of its tag ends up encoded twice. |
| TagsAndLinks.ProcessLinksImagesAndTags | markdown-tokens.cc:348-464 | The link loop, with its splitting of links and its second look behind an unresolved bracket, produces the text and the table of the pass on values. |
| TagsAndLinks.LinksOk | markdown-tokens.cc:348-464 | The link pass keeps old entries, every placeholder it leaves has its item, and the text restores to the text before it with each match replaced by its own markup. |
| TagReading.TagStored | markdown-tokens.cc:451-452 | A known tag is written as it stands if and only if its restored text holds no angle bracket and no ampersand that is taken for a raw one; its quotation marks stay; with an even number of them it reads as no text. |
| TagReading.UnresolvedStays | markdown-tokens.cc:418-422 | Where every match is a bracket that resolves to nothing, the text stays as it is, with everything behind the brackets. |
| LinkReading.AnchorReads | markdown-tokens.cc:659-665 | Read at its quotation marks, the start tag of a link says the address, which decodes to the one given exactly if no ampersand left alone begins an entity, and the title likewise, which is there exactly if it is not empty; angle brackets stand as they are; and it reads as no text. |
| LinkReading.ImageReads | markdown-tokens.cc:768-772 | An image says its address exactly if that holds no quotation mark, then its alternative text exactly if that holds none, and then its title, which is there exactly if it is not empty. |
| LinkReading.AutoLinkReads | markdown-tokens.cc:439-444 | An address in angle brackets becomes a link whose address and whose text decode to it, each exactly if no ampersand left alone begins an entity. |
| LinkReading.MailLinkReads | markdown-tokens.cc:445-450 | A mail address becomes a link in which decoding the character references gives the address back, as its text and, behind the scheme, as its target. |
| TagsAndLinks.HiddenBeforeLinks | markdown-tokens.cc:215-324 | In front of the link pass the text restores to the source with its attributes encoded in place, if and only if there was no double-backtick span. |
| TagsAndLinks.ItemsAlwaysExist | markdown-tokens.cc:215-222 | Whatever the text and the matches, after all hiding passes every placeholder of the text has its item, and it stands for the very match it was put in for. |
| TagsAndLinks.ProcessSpanElements | markdown-tokens.cc:215-222 | The hiding passes in their order, on a fresh table, hand over a text all of whose references are valid. |
| RawMarks.MarksSurvive | markdown-tokens.cc:394-455 | After all hiding passes the restored text holds a mark if and only if the link pass comes to a match that is left as it stands with a placeholder in it, or to an image, link or automatic link with one in its alternative text, address or title; an e-mail address keeps none. |
| RawMarks.RawMarkExample | markdown-tokens.cc:446-449 | The text `<foo\*>`, with a matcher that knows no tag foo, leaves a mark. |
| SpanTokens.TokenizeTextsOk | markdown-tokens.cc:476-507 | Cut at its markers, a well-formed text falls into texts whose references are all valid: no marker lies within a placeholder. |
| SpanTokens.TokenizedComesBack | markdown-tokens.cc:476-507 | The restored tokens joined are as long as the restored text, and are that text if and only if no match mixes the two marker characters. |
| SpanTokens.MixedRunExample | markdown-tokens.cc:469-501 | The text `*_a*_`, with a matcher of the assumed shape, restores to `**a**`. |
| SpanPairs.OpenAndClose | markdown-tokens.cc:476-590 | A run found as an opener and the next match the same run as a closer: the pass ends exactly if it ends on what stands behind, and the HTML is that of the text in front, the start tag by the length of the run, the text between, the end tag, and the HTML of the rest on its own. |
| SpanPairs.AroundAWord | markdown-tokens.cc:494-501 | A run found around a piece of a word is such a pair around that piece, whatever characters it mixes. |
| SpanPairs.NoRuns | markdown-tokens.cc:503-590 | A text in which no run is found is written with its placeholders expanded. |
| SpanWriting.WrittenOut | markdown-tokens.cc:202-213 | The emphasis tags in the HTML of a finished group are those of its markers and of its stored markup, in their order; texts, escapes and code spans write none. |
| HtmlText.EncodedReads | markdown-tokens.cc:38-61 | Where brackets and ampersands are to be encoded, the encoded text reads as its decoding in any context: no tag and no entity that begins in it ends behind it. |
| SpanReading.WrittenReadsBack | markdown-tokens.cc:202-213 | With the tags dropped and the entities decoded, the HTML of a group is the raw texts, escaped characters, code contents and unmatched marker characters in order, if and only if no ampersand of a raw text that the encoder leaves alone begins an entity; otherwise it is shorter. |
| SpanReading.RenderedReadsBack | markdown-tokens.cc:202-624 | The same for what all passes make of any source text, if no image holds a quotation mark and every tag an even number of them. |
| SpanElements.ExpandedGroup | markdown-tokens.cc:466-624 | Any well-formed text, cut, resolved and expanded: every reference that the expanding loop reads has its item, so the assertion on its index holds; the markers' tags balance; the source forms joined are the restored text if and only if no marker mixes its characters. |
| SpanElements.FinishedGroup | markdown-tokens.cc:215-624 | The same for what all hiding passes make of any source text; and the emphasis tags in its HTML are those of the markers and of the stored markup, and balance where the stored markup brings none. |
| SpanRendering.PlainTextRendered | markdown-tokens.cc:202-224 | A text in which nothing is found is written encoded, and decoding gives it back if and only if no ampersand left alone begins an entity. |
| SpanRendering.EmphasisRendered | markdown-tokens.cc:466-591 | A text with one emphasis is written as its three parts, encoded, with the tags between them. |
| SpanRendering.CodeSpanRendered | markdown-tokens.cc:273-677 | A text whose only match is one span in single backticks is written with its contents, encoded, between code tags. |
| SpanRendering.DoubleSpanRendered | markdown-tokens.cc:273-677 | The same for one span in double backticks, whose inner blanks are left out. |
| SpanRendering.EscapeRendered | markdown-tokens.cc:301-324 | A text whose only match is a backslash with one of the sixteen escapable characters is written with that character as it is. |
| SpanRendering.AnchorRendered | markdown-tokens.cc:426-431 | A link is written as its start tag, its contents and the end tag, in place of its match. |
| SpanRendering.ImageRendered | markdown-tokens.cc:423-425 | An image is written in place of its match. |
| SpanRendering.AddressRendered | markdown-tokens.cc:439-450 | An address in angle brackets is written as the link on itself in place of its match. |
| SpanRendering.TagRendered | markdown-tokens.cc:451-452 | A known tag is written between angle brackets, with its quotation marks as they are. |
| SpanRendering.AsIsRendered | markdown-tokens.cc:453-456 | A text in angle brackets that is neither is written encoded as a whole. |
| SpanRendering.UnresolvedRendered | markdown-tokens.cc:418-422 | A bracket that resolves to nothing is written, and the text right behind it is not lost. |
| SpanResolver.TokenizeText | markdown-tokens.cc:476-507 | The cutting loop makes the list of text tokens and fresh markers of the cut text. |
| SpanResolver.ExpandTokens | markdown-tokens.cc:582-590 | The expanding loop turns each text into its expanded tokens and keeps each marker. |
| SpanResolver.ProcessBoldAndItalicSpans | markdown-tokens.cc:466-591 | The whole stage on objects gives the finished group of the resolved and expanded text. |
| SpanResolver.RenderText | markdown-tokens.cc:202-224 | All passes and the writer, from source text to HTML: the HTML that the laws of SpanReading and SpanRendering speak of; its emphasis tags balance where the stored markup brings none of its own. |
| Encoders.EncodeString | markdown-tokens.cc:38-61 | The encoding loop computes the encoding of each character in its context, for every choice of flags. |
| Encoders.CodeRoundTrip | markdown-tokens.cc:38-61 | Decoding entities gives back every text encoded with the flags of code. |
| Encoders.EncodedIsSafe | markdown-tokens.cc:38-61 | No raw angle bracket or quote is left where the flags ask for encoding. |
| EncodedText.NoBracketOrQuote | markdown-tokens.cc:38-61 | Encoded raw text and encoded code hold no angle bracket and no quotation mark. |
| EncodedText.StaysTheSame | markdown-tokens.cc:38-61 | Under the flags of attributes and tags a text stays the same if and only if it holds no angle bracket and no ampersand that is taken for a raw one; otherwise it gets longer. |
| EncodedText.PlainTextIsKept | markdown-tokens.cc:44-52 | A text without a number sign and without a written-out ampersand leaves no bare ampersand, and decoding gives it back. |
| EncodedText.EntityLengths | markdown-tokens.cc:45 | A decimal entity has one to three digits, a hexadecimal one has one or two. |
| Encoders.EncodedComesBack | markdown-tokens.cc:38-61 | Under any flags, decoding gives back the encoded text if and only if no ampersand that the encoder leaves alone begins an entity. |
| Encoders.BareAmpsLeft | markdown-tokens.cc:44-52 | Where ampersands are to be encoded, the output holds one that begins no entity if and only if the text has one that the expression takes for the front of an entity although it begins none. |
| Encoders.BareAmpExample | markdown-tokens.cc:44-52 | The text `& &#1;` is left as it is, with its first ampersand bare. |
| Encoders.BareAmpLineExample | markdown-tokens.cc:44-52 | An ampersand is left bare because a later line begins with a written-out one. |
| Encoders.TextCollides | markdown-tokens.cc:44-47 | With the flags of plain text two different texts are encoded alike. |
| Encoders.EncodeEmail | markdown-tokens.cc:90-105 | The address encoder alternates between decimal and hexadecimal entities as its state says. |
| Encoders.EmailRoundTrip | markdown-tokens.cc:90-105 | Decoding an encoded address gives it back, whichever base the encoding starts in. |
| EncodedText.EmailAlternates | markdown-tokens.cc:90-105 | The first character of an address is written in decimal and every other one in hexadecimal, counting the bytes that stay as they are. |
| EncodedText.EmailStays | markdown-tokens.cc:44-105 | An encoded address is not encoded again where ampersands are. |
| EncodedText.EmailExample | markdown-tokens.cc:90-105 | Two characters of an address, to the letter. |
| Requests.HeadEnds | request.cc:158-171 | The first empty line of printed lines is the one behind the last of them, whatever follows. |
| Requests.SplitsBack | request.cc:173-180 | Splitting joined lines at line breaks gives the lines back. |
| RequestDrift.PrintParse | request.cc:102-203 | Printing and parsing adds one carriage return and one line break and changes nothing else, if and only if the request has a verb, no space in path or version, no colon and space in a key and no line break within a line. |
| RequestDrift.ReturnableRequests | request.cc:131-203 | The parser returns a request for some text if and only if the request is of that shape and its last line ends in a carriage return. |
| RequestDrift.RoundsDrift | request.cc:102-203 | After n rounds the last field (or the version) has gained n carriage returns and the body n line breaks; all else is unchanged. |
| RequestDrift.AcceptedRoundsDrift | request.cc:102-203 | Every accepted request text drifts exactly so for any number of rounds. |
| RequestDrift.ParsedIsGood | request.cc:131-203 | Every parsed request has its verb, no space in path or version, no key with a colon and space, no line break within a line, and a carriage return at the end of its last line. |
| RequestDrift.LineFeedFreeIsGood | request.cc:102-128 | Line-feed-free parts, a space-free path and version and keys without a colon and space are enough for the drift laws. |
| RequestDrift.BreakFirstIsRejected | request.cc:158-187 | Every text that begins with a line break is rejected. |
| RequestText.PrintedText | request.cc:102-128 | What is printed for any request, to the letter. |
| RequestText.AcceptedText | request.cc:131-203 | An accepted text begins with GET or POST and is, to the letter, the text of the parts that the parser finds in it. |
| RequestText.ParsesExactly | request.cc:131-203 | A text is parsed as a given request if and only if the request is a proper one and the text is its text: each proper request comes from exactly one text. |
| RequestParser.AppendedText | request.cc:96-100 | Text appended behind an accepted request becomes the end of its body and changes no other part. |
| RequestParser.Request.Parse | request.cc:13-24 | Gives no object for a rejected text, and otherwise a new one whose parts are what the text says. |
| RequestParser.Request.ParseRawRequest | request.cc:151-203 | The parsing loops accept exactly the texts of the specification and fill in exactly its parts. |
| RequestParser.Request.ToString | request.cc:102-128 | The printing loop writes the printed form of the object's parts. |
| RequestParser.Request.AppendBody | request.cc:96-100 | Appends to body and kept text alike, so a request that agreed with its text still does. |
| LineReader.GetLine | markdown.cc:630-654 | Reads the characters up to the first line break with their tabs expanded, skips one break of one or two characters, and fails exactly at the end. |
| LineReader.Read | markdown.cc:656-671 | Turns the whole stream into one token for each line. |
| LineReader.ClosedLines | markdown.cc:630-654 | Lines closed uniformly by any of the four line endings, with or without a last unclosed one, are read back as they are. |
| LineReader.StylesAgree | markdown.cc:630-671 | Rewriting any text with line endings of one style leaves the document the same. |
| LineReader.CharacterPlaced | markdown.cc:644-650 | A tab fills with spaces up to the next multiple of its width, four in the leading white space and the given width behind it; any other character takes one column and stays itself. |
| LineReader.TabStop | markdown.cc:644-647 | A tab ends at the next multiple of four if only blanks and tabs stand before it, and at the next multiple of the given width otherwise. |
| LineReader.LinesInOrder | markdown.cc:664-670 | The document has one token for each line in order, a blank one exactly where the expanded line matches the expression for blank lines. |
| LineReader.NoTabLeft | markdown.cc:644-650 | No tab is left in a line that was read, and no line shrinks. |
| CodeBlocks.Cursor.IsCodeBlockLine | markdown.cc:190-211 | Looks over any number of blank lines to the next indented one, or fails and comes back to where it was; then there is none to be reached. |
| CodeBlocks.Cursor.ParseCodeBlock | markdown.cc:213-228 | Starts exactly at an indented line, consumes exactly the longest block, gives the line-by-line image of it, and otherwise stays where it was. |
| CodeBlocks.LongestIs | markdown.cc:190-228 | A block cannot be made longer if and only if no indented line can be reached over blank lines behind it. |
| CodeBlocks.CodeComesBack | markdown.cc:190-228 | Putting four blanks in front of every line of the code that is not empty gives the source lines of the block back. |
| ServerStatus.Status.LogRequest | server.cc:213-248 | The in-place updates add one to the counter of the code, of the prefix and URL, and to the total, inserting what is missing. |
| ServerStatus.LoggedSums | server.cc:213-248 | Logging adds one to the sum over the codes and one to the sum over the nested prefix and URL counts. |
| ServerStatus.LoggedUrls | server.cc:230-245 | Logging keeps every prefix and URL counter equal to the number of events with that key, and no other key has a counter. |
| ServerStatus.SameCounts | server.cc:213-248 | The counters depend only on which events were logged, not on their order. |
| ServerRuns.NextKeepsInv | server.cc:213-256 | Every single move of a thread keeps the counters as far along as the holder of the lock is, and every snapshot in agreement. |
| ServerRuns.EveryRunAgrees | server.cc:213-256 | In every interleaving each snapshot agrees with the events logged before it, and its total is the sum over the codes and over the prefixes and URLs. |
| ServerRuns.RunsConverge | server.cc:213-256 | Two runs that have logged the same events, by any threads in any order, have the same counters. |
| ServerRuns.HalfwayDisagrees | server.cc:213-248 | Within a call, between its first update and its last, the total never equals the sum over the codes: the lock is needed. |

## Left out

- EmphasisResolver.MatchMarkers: takes only lists on which the first pass ends, because a run that does not end has no result to state; EmphasisTermination.EndsExactly says which lists those are.
- TagsAndLinks.TagsOk: does not claim that the source text comes back, because the original restores an attribute as encoded HTML; it says what comes back instead.
- CodeSpans.HidePass: the next match of a regular expression is a parameter; all that is assumed is that its matches are quoted by its backticks and not empty.
- TagsAndLinks.LinksOk: the next match, its classification and the outcome of the reference lookup are parameters; assumed is that a match begins and ends with a bracket and that its contents or alternative text stand between brackets.
- SpanResolver.RenderText: the next match of the emphasis expression is a parameter; it takes only texts on whose tokens the first emphasis pass ends.
- Encoders.EmailRoundTrip: is stated for strings of bytes, which is what the original's strings are; a byte from 128 on is passed through, as in the original.
- ConfigLexer.ParseToken: the text it is given to fill always comes in empty, as its only caller makes sure.
- ConfigLayout.PrintIsLaidOut: says nothing of a tree with a line end within a quoted word, because the line behind it belongs to the word and not to the layout.
- CodeBlocks.CodeComesBack: takes lines that hold no line end nor nothing but four blanks, which is how the line reader gives them.
- ServerStatus.Status.GetSnapshot: the walk over the open connections runs outside the lock and is not part of the snapshot here; the counters are unbounded, and wrap-around at the width of an int is not modelled.
- LineReader.Read: the regular expression that recognises a blank line is a parameter.
- The texts of the Markdown passes are taken to hold no `\x01` of their own.
- The grouping of space-bracketed runs of underscores and asterisks, which is one regular expression.
- List, block quote, inline HTML, paragraph and reference parsing in the Markdown document: they are driven by regular expressions built at run time.
- `Request` header access and `set_uri`, `NginxConfig::Find`, `HandlerContainer::Find` and the `Response` helpers, which would add only easy members.
- Sockets, threads beyond the lock, connection lifetimes, the HTTP client, log output and the request handlers.
