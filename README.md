# Entity-Forge core in Dafny

Entity-Forge is an editor for FGD files, the entity definition files of the
Source and GoldSrc level editors. This project models four parts of it and
proves properties of the model:

- the FGD document (`FgdModel`): the element values, the `EntityClass` object
  and the `FGDFile` with its two indexes `class_map` and `base_classes`;
- the parser (`FgdParser`, with the line recognisers in `FgdPatterns`): a
  `Parser` object whose cursor and document change step by step, each method
  proved equal to a function of the lines and the cursor;
- the serializer (`FgdSerializer`), and the lemmas (`FgdReadBack`) showing which
  written lines the parser's recognisers read back; `FgdLineShapes` covers
  hand-written line shapes the writer never emits (property keywords, any
  digit as a flag tick, helper calls, a trailing `=`);
- the editor's index edits (`FgdEditor`): rename, retype, delete and add a
  class, the base-class, colour and size fields, and the new-property dispatch;
- the version tool (`VersionUpdate`): the bump rule and the four `re.sub`
  rewrites of the batch file.

`Text` models the Python string builtins the code relies on (`strip`,
`split`, `join`, `lower`, `capitalize`, `str`, `int`, escaping), and `Wrappers`
holds `Option` and `Result`. A Python exception becomes an `Err` or `None`
result; a `print` warning is dropped.

Both indexes are maps written by `add_element` in list order. `Valid()` says
they are exactly what a run of `add_element` calls over the current list would
build. `Unique()` adds that no two classes share a name. The parser keeps
`Valid()`. The editor's hand edits keep both invariants when the names are
unique. The `*LeavesNamesake` lemmas show the edits do not keep the index
exact once two classes share a name.

## Model

| member | source | states |
|---|---|---|
| FgdModel.NewChoiceItem | fgd_model.py:76-81 | Fails exactly when the value, which is the element name, is empty; otherwise value, display name and description are kept. |
| FgdModel.NewFlagItem | fgd_model.py:96-102 | Never fails, because the element name `str(value)` is never empty; all four fields are kept. |
| FgdModel.NewProperty | fgd_model.py:59-67 | Fails exactly when the name is empty; otherwise every field is kept and the shape picks the keyvalue, choices or flags class. |
| FgdModel.NewIO | fgd_model.py:117-121 | Fails exactly when the name is empty; otherwise type, name, argument type and description are kept. |
| FgdModel.EntityClass.constructor | fgd_model.py:128-144 | Stores every argument; colour, size, studio and sprite start absent. |
| FgdModel.NewEntityClass | fgd_model.py:128-144 | Fails exactly when the name is empty; otherwise a fresh class holding every argument, with no colour, size, studio or sprite. |
| FgdModel.EntityClass.SetName | fgd_gui.py:496 | The new name is stored, and the entries of any element list change only for this class. |
| FgdModel.EntityClass.SetClassType | fgd_gui.py:503 | The new type is stored, and the entries of any element list change only for this class. |
| FgdModel.EntityClass.AddIO | fgd_model.py:146-151 | An input is appended to `inputs` only, an output to `outputs` only, and any other type changes neither list. |
| FgdModel.EntriesOfAppend | fgd_model.py:166 | Appending an element appends its entry, if it has one, to the end of the entries; the earlier entries keep their order. |
| FgdModel.IndexAppend | fgd_model.py:167-170 | One `add_element` writes the class under its name in `class_map`, and in `base_classes` precisely when its type is `BaseClass`. |
| FgdModel.LastMatch | fgd_model.py:167-170 | Gives the last entry with that name (and type `BaseClass` when asked), or says none exists. |
| FgdModel.IndexIsLastMatch | fgd_model.py:164-170 | A name is a key of either index exactly when some entry matches it, and the key maps to the last such entry: a later namesake overwrites the map while the list keeps both. |
| FgdModel.UniqueIndex | fgd_model.py:164-170 | With unique names, `class_map` holds exactly the listed names, each mapped to its own class, and `base_classes` is the part of it whose classes have type `BaseClass`. |
| FgdModel.FGDFile.constructor | fgd_model.py:159-162 | An empty document whose empty indexes are valid and unique. |
| FgdModel.FGDFile.AddElement | fgd_model.py:164-170 | Appends to the end of the list; a class then writes its name into `class_map`, and into `base_classes` when its type is `BaseClass`; other elements enter neither map. |
| FgdModel.FGDFile.AppendValid | fgd_model.py:164-170 | An append done as `add_element` does it keeps the indexes equal to those the new list builds. |
| FgdModel.FGDFile.ValidStable | fgd_model.py:157-170 | The indexes stay valid while no listed class is renamed or retyped. |
| FgdModel.FGDFile.SetIndexes | fgd_gui.py:492-499 | The editor's writes to the two maps leave the element list and its entries alone. |
| FgdModel.FGDFile.SetContents | fgd_gui.py:163-166 | The editor's writes to the list and both maps store exactly what is given. |
| FgdParser.Parser.constructor | fgd_parser.py:11-14 | A fresh empty document, no lines, cursor at zero. |
| FgdParser.Parser.ParseContent | fgd_parser.py:16-47 | The lines are the pre-processed content, and the document built is `ParseText` of the content, element by element, with valid indexes. |
| FgdParser.Parser.ParseTopLine | fgd_parser.py:38-45 | One line of the top loop: a line starting with `@` goes to the directive parser, any other line adds nothing. |
| FgdParser.Parser.Peek | fgd_parser.py:49-59 | Returns the stripped next meaningful line, or nothing at the end; the cursor does not move. |
| FgdParser.Parser.Get | fgd_parser.py:61-70 | Returns the same line `Peek` would and leaves the cursor just past it, or at the end when none is left. |
| FgdParser.Parser.Add | fgd_model.py:164-170 | Adding to the parser's document appends one element and keeps the indexes valid. |
| FgdParser.Parser.ParseDirective | fgd_parser.py:72-90 | The document grows by what `DirectiveStep` gives for the line, routed on its lower-cased prefix. |
| FgdParser.Parser.ParseInclude | fgd_parser.py:92-95 | Adds an include with the path `IncludePath` finds, or nothing. |
| FgdParser.Parser.ParseMapSize | fgd_parser.py:97-100 | Adds a map size with the two bounds `MapSizeOf` finds, or nothing. |
| FgdParser.Parser.ParseVersion | fgd_parser.py:102-105 | Adds a version with the number `VersionOf` finds, or nothing. |
| FgdParser.Parser.ParseMaterialExclusion | fgd_parser.py:107-116 | Without a `[` next nothing is added and nothing is read; otherwise the quoted paths up to `]` become one exclusion. |
| FgdParser.Parser.ReadMaterialPaths | fgd_parser.py:110-115 | The path loop as `MaterialPaths`: each line up to `]` contributes its first quoted string, if it has one. |
| FgdParser.MaterialPaths | fgd_parser.py:110-115 | The loop only moves the cursor forward and stays within the lines. |
| FgdParser.Parser.ParseAutoVisGroup | fgd_parser.py:118-123 | Adds a group with the quoted parent name and the block's children, or nothing when the line has no name. |
| FgdParser.Parser.ParseVisBlock | fgd_parser.py:125-142 | The children and cursor are those of `VisBlock`. |
| FgdParser.VisBlockOpen | fgd_parser.py:126-127 | Without a `[` next the block is empty and consumes nothing; with one the cursor moves. |
| FgdParser.VisItemsKeep | fgd_parser.py:129-141 | Children already read stay at the front, in order. |
| FgdParser.VisBlockNamed | fgd_parser.py:129-141 | Every child, nested or not, carries a non-empty name without quotes: a line without a quoted string adds nothing. |
| FgdParser.FirstQuotedNamed | fgd_parser.py:131 | A quoted string that is found is non-empty and quote-free. |
| FgdParser.Parser.ReadHeader | fgd_parser.py:148-159 | The header lines, the cursor after them and whether a `[` was seen, as `HeaderLines`. |
| FgdParser.Parser.ParseEntityClass | fgd_parser.py:144-222 | Adds one class whose value and body are those `EntityStep` gives, or nothing for a malformed header, and moves the cursor as `EntityStep` does. |
| FgdParser.Parser.AddEntityClass | fgd_parser.py:210-222 | The class is in the document before its body is read, and ends up with the body `EntityBodyAt` gives. |
| FgdParser.Parser.FillBody | fgd_parser.py:213-222 | Filling the body of the last class changes only that class's value in the document. |
| FgdParser.Parser.AddClass | fgd_parser.py:210-211 | A fresh class with the header's value and an empty body is appended; earlier elements are untouched. |
| FgdParser.Parser.ReadClassHeader | fgd_parser.py:148-206 | The header part as `ClassHeaderAt`; a class found has a non-empty name. |
| FgdParser.Parser.ParseEntityBody | fgd_parser.py:213-222 | A remainder of just `]` ends the class; otherwise the body is read as `EntityBodyAt` says. |
| FgdParser.Parser.ParseBodyContent | fgd_parser.py:216-217 | The body is read when it has started or a `[` is next, as `BodyContentAt`. |
| FgdParser.Parser.SkipClose | fgd_parser.py:221-222 | A stray `]` after the body is consumed, and nothing else. |
| FgdParser.Parser.ParseHeader | fgd_parser.py:161-206 | The class of a header text as `HeaderClass`. |
| FgdParser.Parser.ParseAround | fgd_parser.py:186-206 | The class around a top-level `=` as `ClassAround`. |
| FgdParser.Parser.BuildClass | fgd_parser.py:201-210 | The class value built from the raw type, helper text, name and description, as `ClassFrom`. |
| FgdParser.HeaderClass | fgd_parser.py:161-206 | A class read from a header has a non-empty name and a normalised type ending in `Class`. |
| FgdParser.ClassFrom | fgd_parser.py:201-210 | Keeps name and description, normalises the type, and starts with an empty body. |
| FgdParser.HeaderNeedsEquals | fgd_parser.py:182-184 | A header without an `=` at depth zero yields no class. |
| FgdParser.FirstTopLevelEquals | fgd_parser.py:170-180 | The first `=` at paren and brace depth zero, with none before it, or none at all. |
| FgdParser.TopLevelEqualsIndex | fgd_parser.py:170-180 | The depth-counting loop finds the `FirstTopLevelEquals` index, or -1. |
| FgdParser.Parser.ParseEntityContent | fgd_parser.py:262-285 | The body and cursor after `_parse_entity_content`, as `EntityContent`. |
| FgdParser.Parser.ParseSameLineBody | fgd_parser.py:268-272 | A body closed on its header line reads only what lies before the `]`. |
| FgdParser.Parser.ParseLeadLine | fgd_parser.py:273-274 | The header's remainder is read as the first body line. |
| FgdParser.Parser.ParseContentBlock | fgd_parser.py:276-285 | An optional `[`, the line loop, and an optional `]`. |
| FgdParser.Parser.SkipOpen | fgd_parser.py:276-277 | A `[` next is consumed, and nothing else. |
| FgdParser.Parser.ParseContentLines | fgd_parser.py:279-282 | Every line up to `]` or the end goes to the line parser, as `ContentLines`. |
| FgdParser.Parser.ParseEntityLine | fgd_parser.py:287-321 | An input or output line, a property line (with its item block), or nothing, as `EntityLine`. |
| FgdParser.Parser.ParseStrippedLine | fgd_parser.py:291-321 | The same on the stripped line: the IO pattern first, then the property pattern. |
| FgdParser.Parser.ParsePropertyLine | fgd_parser.py:300-319 | A property line appends one property; any other line adds nothing. |
| FgdParser.Parser.AppendProperty | fgd_parser.py:303-318 | Appends the property `WithPropertyAt` gives. |
| FgdParser.WithPropertyAt | fgd_parser.py:303-318 | Exactly one property is appended after the existing ones; inputs and outputs are untouched. |
| FgdParser.Parser.ReadProperty | fgd_parser.py:303-316 | The property of a header line, with its item block read when one follows. |
| FgdParser.Parser.ParseItemBlock | fgd_parser.py:344-360 | The item block as `ItemBlock`: nothing without a `[`, otherwise each item line up to `]`. |
| FgdParser.ItemsFrom | fgd_parser.py:353-357 | The item loop moves the cursor forward and stops at `]` or the end without consuming it. |
| FgdParser.ParseHelpersAndBases | fgd_parser.py:224-260 | The helpers and bases are those `HelperScan` collects. |
| FgdParser.ScanCall | fgd_parser.py:231-259 | One helper call: an unclosed call moves on one character, `base(...)` extends the base list, any other key is upserted. |
| FgdParser.ClosingParen | fgd_parser.py:237-251 | The inner scan finds the index at which both depths return to zero exactly when `ClosingFrom` does. |
| FgdParser.CleanToken | fgd_parser.py:334-340 | One token cleaned as `CleanPart`. |
| FgdParser.CleanTokens | fgd_parser.py:332-340 | The cleaning loop keeps, in order, what `CleanPart` keeps. |
| FgdParser.ExtractPropDetails | fgd_parser.py:323-342 | The details are `PropDetails` of the rest of the line. |
| FgdParser.SnapshotAppend | fgd_model.py:166 | Appending an element appends its value to the document's values. |
| FgdPatterns.SearchFromNone | fgd_parser.py:231 | `re.search` fails exactly when no position matches. |
| FgdPatterns.SearchFromMatch | fgd_parser.py:231 | A successful search is the match at some position with no match before it. |
| FgdPatterns.SearchFromLeftmost | fgd_parser.py:231 | The leftmost matching position decides the search. |
| FgdPatterns.ContinuationAt | fgd_parser.py:28 | A continuation starts with a closing quote and ends with an opening quote. |
| FgdPatterns.MergeContinuations | fgd_parser.py:28 | Merging continuations never makes the text longer. |
| FgdPatterns.MergeWithoutQuotes | fgd_parser.py:28 | Text without a quote is left alone. |
| FgdPatterns.SplitStackedBrackets | fgd_parser.py:31 | Splitting `]]` never makes the text shorter. |
| FgdPatterns.SplitStackedBracketsNoPair | fgd_parser.py:31 | Text without `]]` is left alone. |
| FgdPatterns.Preprocess | fgd_parser.py:28-33 | No resulting line holds a line break. |
| FgdPatterns.NextMeaningful | fgd_parser.py:52-58 | The first line at or after the cursor that is neither blank nor a `//` comment; every line skipped is one of those. |
| FgdPatterns.PeekAt | fgd_parser.py:49-59 | A peeked line is non-empty and no comment. |
| FgdPatterns.AfterGet | fgd_parser.py:61-70 | `get` moves the cursor past the peeked line, or to the end when there is none. |
| FgdPatterns.DirectiveIgnoresCase | fgd_parser.py:76-90 | The routing of a directive does not depend on letter case. |
| FgdPatterns.DirectiveStartsWithAt | fgd_parser.py:76-90 | Any line routed to a directive parser starts with `@`. |
| FgdPatterns.QuotedAt | fgd_parser.py:94 | A quoted string found is non-empty, quote-free and inside the text. |
| FgdPatterns.QuotedFound | fgd_parser.py:131 | A text with a non-empty quote-free part in quotes, and no quote before it, yields that part. |
| FgdPatterns.IncludePath | fgd_parser.py:92-95 | An include path found is non-empty and quote-free. |
| FgdPatterns.SignedIntAt | fgd_parser.py:98 | A number found covers at least one character. |
| FgdPatterns.VersionOf | fgd_parser.py:102-105 | A version found is not negative. |
| FgdPatterns.NameAndDescription | fgd_parser.py:189-194 | A name found is a non-empty run of word characters. |
| FgdPatterns.NormalizeClassType | fgd_parser.py:203-206 | A normalised type always ends in `Class`. |
| FgdPatterns.NormalizeIdempotent | fgd_parser.py:203-206 | Normalising a normalised type changes nothing. |
| FgdPatterns.NormalizeIgnoresCase | fgd_parser.py:203-206 | The letter case of the raw type does not matter. |
| FgdPatterns.NormalizeWithSuffix | fgd_parser.py:204-206 | A type ending in any spelling of `class` keeps the capitalised stem before it. |
| FgdPatterns.NormalizePointClass | fgd_parser.py:203-206 | `pointclass` becomes `PointClass`. |
| FgdPatterns.NormalizeNpcClass | fgd_parser.py:203-206 | `NPCClass` becomes `NpcClass`. |
| FgdPatterns.NormalizeBaseClass | fgd_parser.py:203-206 | `BaseClass` stays `BaseClass`. |
| FgdPatterns.HelperCallAt | fgd_parser.py:231-235 | A helper call names a non-empty word and its argument text starts after the `(`. |
| FgdPatterns.FindHelperCall | fgd_parser.py:231-235 | The argument start of a call found lies strictly after the cursor. |
| FgdPatterns.HelperStepAt | fgd_parser.py:230-259 | Each closed call moves the scan cursor strictly forward, so the loop ends. |
| FgdPatterns.ClosingFrom | fgd_parser.py:241-249 | A closing index found lies within the text. |
| FgdPatterns.HelperScanKeepsBases | fgd_parser.py:253-254 | Repeated `base(...)` calls accumulate: the bases collected so far stay at the front, in order. |
| FgdPatterns.NonEmptyStripped | fgd_parser.py:254 | Every piece kept is non-empty and stripped. |
| FgdPatterns.BaseList | fgd_parser.py:254 | Every base name is non-empty, stripped and holds no comma. |
| FgdPatterns.BaseListOfJoin | fgd_serializer.py:28 | Base names written joined by `, ` are split back into the same names. |
| FgdPatterns.Upsert | fgd_parser.py:256 | A dictionary assignment grows the dictionary by at most one key. |
| FgdPatterns.UpsertLookup | fgd_parser.py:256 | After `helpers[key] = value` the key reads the value and every other key reads as before: the last duplicate wins. |
| FgdPatterns.UpsertOrder | fgd_parser.py:256 | An existing key keeps its place; a new key goes at the end. |
| FgdPatterns.TrailingDescription | fgd_parser.py:294 | An IO description found is quote-free. |
| FgdPatterns.IoLine | fgd_parser.py:294-298 | An IO line found has a non-empty name and the type `input` or `output`, lower-cased. |
| FgdPatterns.IoKeyword | fgd_parser.py:294 | The keyword found is `input` or `output` in any case. |
| FgdPatterns.IoFields | fgd_parser.py:294 | The name found is non-empty and the `)` lies inside the text. |
| FgdPatterns.PropLine | fgd_parser.py:300-302 | A property line found has a non-empty name and type. |
| FgdPatterns.PropertyKindOf | fgd_parser.py:306-316 | Choices exactly when the lower-cased text before the first comma is `choices`, flags exactly when it is `flags`, keyvalue otherwise. |
| FgdPatterns.TokensFrom | fgd_parser.py:330 | Every token is non-empty. |
| FgdPatterns.FilterMapSnoc | fgd_parser.py:332-340 | The cleaning loop handles one token at a time, in order. |
| FgdPatterns.FirstThree | fgd_parser.py:342 | Exactly three details; missing positions are empty. |
| FgdPatterns.PropDetails | fgd_parser.py:323-342 | Always exactly three details. |
| FgdPatterns.DisplayAfterColon | fgd_parser.py:363 | A display name found is non-empty and quote-free. |
| FgdPatterns.ChoiceItemOf | fgd_parser.py:362-368 | A choice found has a non-empty quote-free value and display name. |
| FgdPatterns.TickAt | fgd_parser.py:371-374 | A tick found ends inside the text. |
| FgdPatterns.FlagItemOf | fgd_parser.py:370-377 | A flag found has a non-empty quote-free display name and a quote-free description. |
| FgdSerializer.Indent | fgd_serializer.py:59 | Four spaces per level and nothing else. |
| FgdSerializer.DocumentLinesAppend | fgd_serializer.py:10-17 | The output follows the element order: the lines of two lists are the lines of the first, then the second. |
| FgdSerializer.IncludeReadBack | fgd_serializer.py:19-20 | A written include is routed to the include parser, which reads back the same path when it is non-empty and quote-free. |
| FgdSerializer.IoDescriptionShown | fgd_serializer.py:58-64 | An IO line carries ` : "desc"`, escaped, exactly when the description is not empty. |
| FgdSerializer.ItemBlockShown | fgd_serializer.py:84-93 | A block is written exactly when a choices or flags property has items; its brackets sit at the property's indent and its items one level deeper. |
| FgdSerializer.PropertyIndented | fgd_serializer.py:66-95 | Every line of a property starts with the property's indent. |
| FgdSerializer.PropertyBalanced | fgd_serializer.py:66-95 | Every bracket a property opens it closes, and none it did not open. |
| FgdSerializer.PropertyLinesBalanced | fgd_serializer.py:52-53 | The same for a run of properties. |
| FgdSerializer.HeaderLayout | fgd_serializer.py:26-44 | The header starts with `@` and the type, has `base(a, b)` second exactly when there are bases, and ends with `= name : "desc"`. |
| FgdSerializer.ClassOrder | fgd_serializer.py:44-56 | The header, then `[`, then every input, every output and the properties in order, then `]`. |
| FgdSerializer.ClassBalanced | fgd_serializer.py:45-55 | The `[` after the header is closed by the last line and by no line before it. |
| FgdSerializer.BodyBalanced | fgd_serializer.py:47-53 | The body's own brackets balance. |
| FgdSerializer.NamePartReadBack | fgd_serializer.py:41-42 | The written `= name : "desc"` is read back to the same name and description, for a word-character name and a description without surrounding whitespace. |
| FgdSerializer.UnescapeStrippedEscape | fgd_serializer.py:41 | The parser's unescape undoes the writer's escape of a description without surrounding whitespace. |
| FgdReadBack.IoReadBack | fgd_serializer.py:58-64 | A written IO line is read back with its type, argument type and description; the name comes back wrapped in the quotes the writer added. |
| FgdReadBack.PropertyReadBack | fgd_serializer.py:71-81 | For a non-empty name of `[\w."]` characters and a non-empty type without `)`, a written property line is read back with its name and type, `readonly` and `report` unset, and the written details as the rest. |
| FgdReadBack.DetailsReadBack | fgd_serializer.py:72-79 | For a display name and default value with no `"` and no `\`, and a description with no `\` (a `"` in it is allowed, being escaped), the three written details are read back as display name, default value and description. |
| FgdReadBack.ChoiceReadBack | fgd_serializer.py:97-102 | For a non-empty quote-free value and display name and a quote-free description, a written choice line is read back as the same choice. |
| FgdReadBack.FlagReadBack | fgd_serializer.py:104-107 | For a non-empty quote-free display name, a written flag line is read back with its value, display name and tick; its description comes back empty, as it is never written. |
| FgdLineShapes.PropLineKeywords | fgd_parser.py:300-316 | On a property line `name(type)` followed by the optional keywords and a rest, `readonly` is true exactly when `readonly` is written and `report` exactly when `report` is, each keyword setting only its own flag, and the rest is what follows them. |
| FgdLineShapes.FlagDigitTick | fgd_parser.py:371-375 | A flag line `value : "name" : c` for any digit `c` gives `ticked` true exactly when `c` is not `0`, with the value and display name as written. |
| FgdLineShapes.FlagNoTick | fgd_parser.py:371-375 | A flag line `value : "name"` with no tick gives `ticked` false. |
| FgdLineShapes.HelperStepOfCall | fgd_parser.py:231-258 | One round of the helper scan on `word(args)`, for arguments without brackets, finds the key `word` lower-cased and the arguments stripped, and goes on just after `)`. |
| FgdLineShapes.HelperScanStep | fgd_parser.py:230-259 | Once the call `word(args)` is found at the cursor, the scan adds the comma-separated names of the stripped arguments for `base` and otherwise sets the lower-cased key to the stripped arguments, then continues after `)`. |
| FgdLineShapes.HelperScanOne | fgd_parser.py:228-259 | A helper list of one non-`base` call yields exactly one helper, lower-cased key and stripped arguments, and no bases. |
| FgdLineShapes.DetailsDropEquals | fgd_parser.py:327-328 | A trailing ` =` after the details changes none of the three details extracted. |
| FgdLineShapes.DetailsEqualsReadBack | fgd_parser.py:323-342 | A written details text followed by ` =` (a hand-written block opener) still reads back as display name, default value and description, under DetailsReadBack's conditions. |
| FgdReadBack.SignedIntOfText | fgd_parser.py:98 | The decimal text of any integer, followed by a non-digit, is read back as that integer. |
| FgdReadBack.SignedIntIn | fgd_parser.py:98 | The same at any position inside a line. |
| FgdReadBack.MapSizeReadBack | fgd_parser.py:97-100 | The line `@mapsize(lo, hi)` is routed to the map-size parser and gives back both bounds. |
| FgdReadBack.VersionReadBack | fgd_parser.py:102-105 | The line `@version(n)` is routed to the version parser and gives back `n`. |
| FgdEditor.RenameClass | fgd_gui.py:485-500 | Ignored for an empty or unchanged name, refused for a taken one, raises when the old name is not a key, otherwise the class takes the name, `class_map` moves it to the new key, and `base_classes` holds it under the new key exactly when it is a base class; a listed class never raises, and unique names keep both invariants. |
| FgdEditor.MoveName | fgd_gui.py:492-499 | The applied rename: the old key goes from both maps and the new key maps to the class, in `base_classes` only for a base class; the element list keeps its order. |
| FgdEditor.RenameClassIndex | fgd_gui.py:492-497 | On unique names, the `class_map` the editor writes is the one `add_element` would build from the renamed list. |
| FgdEditor.RenameBaseIndex | fgd_gui.py:493-499 | On unique names, the `base_classes` the editor writes is the one `add_element` would build from the renamed list. |
| FgdEditor.ChangeClassType | fgd_gui.py:502-509 | Ignored for the same type; otherwise the type is stored, leaving `BaseClass` drops the `base_classes` key and entering it adds one, and `class_map` is untouched; unique names keep both invariants. |
| FgdEditor.RetypeClassIndex | fgd_gui.py:506 | Retyping leaves the `class_map` a list would build unchanged. |
| FgdEditor.RetypeBaseIndex | fgd_gui.py:504-508 | On unique names, the `base_classes` the editor writes is the one `add_element` would build from the retyped list. |
| FgdEditor.DeleteClass | fgd_gui.py:161-166 | No key, no change; a key whose class is not listed raises; otherwise that class leaves the list (its first occurrence), its `class_map` key goes, and its `base_classes` key goes for a base class; a valid document never raises, and unique names keep both invariants. |
| FgdEditor.RemoveClass | fgd_gui.py:163-166 | The applied delete: the list loses its first occurrence of the class, both maps lose the key as above. |
| FgdEditor.RemoveFirstOrder | fgd_gui.py:163 | `list.remove` keeps the other elements in order: those before the removed one stay put, those after move up by one. |
| FgdEditor.DropIndex | fgd_gui.py:164-166 | On unique names, dropping a class's entry removes exactly its key from both indexes the list builds. |
| FgdEditor.RecordedEntry | fgd_gui.py:161-163 | Every `class_map` key of a valid document maps to a listed class, so `remove` finds it. |
| FgdEditor.ListedName | fgd_gui.py:492 | A listed class's name is a key of the `class_map` the list builds, so rename never raises on it. |
| FgdEditor.AddNewClass | fgd_gui.py:136-147 | Ignored for an empty name or type, refused for a taken name, otherwise a fresh class with the name, type, fixed description and empty lists is appended and written into the indexes as `add_element` does; both invariants are kept. |
| FgdEditor.RenameLeavesNamesake | fgd_gui.py:492-497 | With a second class of the old name in the list, the `class_map` the editor writes lacks a name the list still holds. |
| FgdEditor.RetypeLeavesNamesake | fgd_gui.py:504-505 | With a second base class of the same name, leaving `BaseClass` drops a key the list still needs. |
| FgdEditor.DeleteLeavesNamesake | fgd_gui.py:161-164 | With two classes of the same name, deleting the indexed one drops a key the other still needs. |
| FgdEditor.UpdateBaseClasses | fgd_gui.py:514-515 | The base list becomes the comma-separated, stripped, non-empty pieces in order. |
| FgdEditor.ParseInts | fgd_gui.py:519 | `tuple(map(int, words))`: a value exactly when every word is an integer, one number per word. |
| FgdEditor.ParseCoord | fgd_gui.py:519-522 | A colour exactly when the text is three whitespace-separated integers, holding those three; otherwise nothing. |
| FgdEditor.ParseSize | fgd_gui.py:526-530 | A size exactly when both corners are three integers, holding both corners; otherwise nothing. |
| FgdEditor.UpdateColor | fgd_gui.py:517-522 | The colour becomes the parsed colour, or absent when the text does not parse. |
| FgdEditor.UpdateSize | fgd_gui.py:524-530 | The size becomes the parsed size, or absent when either corner does not parse. |
| FgdEditor.CoordTextReadBack | fgd_serializer.py:30 | The colour text `r g b` the editor shows and the writer emits reads back as the same colour. |
| FgdEditor.SizeTextReadBack | fgd_serializer.py:32-33 | The two corner texts read back as the same size. |
| FgdEditor.AddProperty | fgd_gui.py:365-375 | Nothing for an empty name or type; otherwise one property with that name and type, empty details and the kind the parser's dispatch picks is appended. |
| VersionUpdate.Bump | version_tool/version_update.py:41-57 | The named counter goes up by one, the more significant ones are kept and the less significant ones reset to zero; any other part name is an error. |
| VersionUpdate.BumpIsLater | version_tool/version_update.py:41-54 | Every bump gives a later release. |
| VersionUpdate.FindFrom | version_tool/version_update.py:27-30 | The leftmost `set KEY=` followed by a digit at or after a position, or none. |
| VersionUpdate.DigitsEnd | version_tool/version_update.py:27-30 | Where the greedy `\d+` stops: every character passed is a digit and the next is not. |
| VersionUpdate.Search | version_tool/version_update.py:27-30 | A match found is a `set KEY=` with at least one digit after it. |
| VersionUpdate.ReadVersion | version_tool/version_update.py:27-39 | The four counters exactly when all four lines are found, each read from its own first match. |
| VersionUpdate.UpdateContent | version_tool/version_update.py:32-63 | A missing line is an error before anything is written, a bad part name is an error, and a success writes the bumped version. |
| VersionUpdate.UpdateReadBack | version_tool/version_update.py:60-63 | The written text reads back, through the same four searches, as the bumped version. |
| VersionUpdate.UpdateDigitsOnly | version_tool/version_update.py:60-63 | Each of the four rewrites changes only the digits of its own variable's first line, to the bumped number; all other text is kept. |
| VersionUpdate.RewriteKeepsRest | version_tool/version_update.py:60 | One rewrite keeps the text before and after the first match and writes `set KEY=n` in its place. |
| VersionUpdate.RewriteMissing | version_tool/version_update.py:60 | Without a match the text is unchanged. |
| VersionUpdate.RewriteReadBack | version_tool/version_update.py:60 | The number just written is the number the search reads back. |
| VersionUpdate.FirstMatchKept | version_tool/version_update.py:60 | A rewrite creates no earlier match of its own key. |
| VersionUpdate.RewriteKeepsOther | version_tool/version_update.py:60-63 | Rewriting one variable leaves what the search reads for a different variable unchanged. |
| VersionUpdate.RewriteDigitsOnly | version_tool/version_update.py:60 | One rewrite changes only the digits of the first match. |
| VersionUpdate.StageReads | version_tool/version_update.py:60-63 | After one rewrite its own variable reads the new number and the other three read as before. |
| VersionUpdate.RewritesReadBack | version_tool/version_update.py:60-63 | After the four rewrites the file reads as the version written. |
| Text.StripIdempotent | fgd_parser.py:291 | Stripping twice is stripping once. |
| Text.SplitJoin | fgd_serializer.py:28 | Splitting a join at its separator gives back the parts when none holds the separator. |
| Text.SplitWhitespaceJoin | fgd_gui.py:519 | Words joined by single spaces split back into the same words. |
| Text.UnescapeEscape | fgd_serializer.py:60 | The parser's `\"` unescape undoes the writer's escape for every string. |
| Text.ParseIntToString | fgd_parser.py:375 | `int(str(n)) == n` for every integer. |
| Text.LowerIdempotent | fgd_parser.py:76 | Lower-casing twice is lower-casing once. |
| Text.CapitalizeIdempotent | fgd_parser.py:206 | Capitalising twice is capitalising once. |

## Left out

- File input and output: `parse_fgd_file` takes the file's text as `content` instead of a path. The `IOError` wrapper and the universal-newline translation of `open` are not modelled (fgd_parser.py:24-35).
- The version tool's file read and write, its `sys.exit` calls, its final message and the `subprocess` call are not modelled. `UpdateContent` takes the file's text and returns the new text or the reason it would exit (version_tool/version_update.py:19-24, 56-57, 66-79).
- `print` warnings are dropped (fgd_parser.py:45, 90, 183, 191, 198, 321, 349, 368, 377).
- Typed fields replace Python's dynamic types. So the `ValueError` for a non-string name or description is not modelled, nor are the `isinstance` checks on the list arguments (fgd_model.py:10-13, 89-91, 110-112, 141-144). Only the empty-name check remains.
- NewProperty: Property's rule that replaces a non-string display name or default value by `""` is not modelled; those fields are strings by type (fgd_model.py:64-65).
- The directive elements' fixed display names, descriptions and class-type strings are not modelled (fgd_model.py:24, 34, 41, 47, 53). Nothing in the core reads them.
- EntityClass: the source stores the caller's `properties`, `inputs` and `outputs` lists themselves, so the caller and the class share them. The model stores sequence values, so there is no aliasing (fgd_model.py:136-138).
- EntityClass has no `color`, `size`, `studio` or `sprite` attribute in the source. The serializer reads them and would raise `AttributeError` on every class, and the GUI template passes them to the constructor, which would raise `TypeError` (fgd_serializer.py:29-38, fgd_model.py:128-144, fgd_gui.py:119-127). The model gives the class these four fields as options that start absent. The template itself is not modelled.
- The f-strings at fgd_serializer.py:76 and 101 put backslashes inside the expression part, which Python accepts only from 3.12 on. The model writes the escaped description as those lines evidently intend.
- Letter case and character classes are ASCII only. This covers `lower`, `capitalize`, `re.IGNORECASE`, `\w`, `\d` and the digits `int()` accepts, which in Python cover all of Unicode.
- Regular expressions are not modelled in general. Each pattern the core uses has its own recogniser that follows that pattern's matching, backtracking included.
- No whole-document parse of a serialized document is claimed. Helpers are parsed but never written. `readonly` and `report` are never written; `FgdLineShapes` reads them from hand-written lines. Flag descriptions are never written. Map size, version, material exclusion and AutoVisGroup elements are written only as blank lines. The read-back lemmas cover include lines, the class header's name part, IO, property, details, choice and flag lines, and the map-size and version lines.
- PropertyReadBack: the writer neither checks nor escapes the name and type. A name with a character outside `[\w."]` makes the line no property line at all, and a `)` in the type ends the type early and shifts the rest of the line (fgd_serializer.py:71, fgd_parser.py:300). The lemma requires a non-empty name of `[\w."]` characters and a non-empty type without `)`.
- DetailsReadBack: the writer quotes the display name and the default value without escaping them (fgd_serializer.py:74-75). A `"` in either ends the token early and shifts the later details: `a"b` reads back as display name `a` and default `b"`. The tokeniser reads a backslash as escaping the next character (fgd_parser.py:330). So a display name `a\` swallows the ` : ` after it, and a description `a\"`, written `"a\\""`, reads back as `a\\`. The lemma requires none of these.
- ChoiceReadBack: the writer quotes the value and display name unescaped, and escapes a `"` in the description as `\"` (fgd_serializer.py:99-101). The choice pattern stops each of these fields at the first quote (fgd_parser.py:363), so a description `a"b` reads back as `a\`, a quote in the display name cuts it short, and a quote in the value leaves the line unmatched, so the choice is skipped. The lemma requires all three quote-free.
- FlagReadBack: the display name is quoted unescaped (fgd_serializer.py:107), and the flag pattern stops it at the first quote (fgd_parser.py:371). So `1 : "a"b" : 1` reads back as display name `a` with the tick lost (false). The lemma requires a quote-free display name.
- IoReadBack: an IO name comes back with the quotes the writer put around it; the lemma states this. Descriptions with a quote are outside it, because the description pattern stops at the first quote even when escaped.
- The editor's widgets, dialogs and message boxes are not modelled, nor is the "no FGD loaded" warning (fgd_gui.py:131-133). A dialog's answer is a parameter. The other editor handlers are not part of this model: `_update_element_description`, the IO, property, choice and flag removals, and the choice and flag additions (fgd_gui.py:348-410, 511-512).
- RenameClass, ChangeClassType, DeleteClass: the source edits the two maps by hand, and the model does the same on every document. Only for documents with unique class names is it proved that the maps stay what the list would build. The `*LeavesNamesake` lemmas show that with duplicate names they do not.
