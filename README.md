# StyledPopup in Dafny

StyledPopup is a Sublime Text plugin. It turns the active colour scheme into a CSS
stylesheet so that popups can use the scheme's colours. The repository holds five variants
of that compiler, and three of them also carry a stylesheet cache. This project models each
variant as its own code is written, and proves what each one promises.

| module | models |
|---|---|
| `Wrappers` | `Option` and `Result` |
| `Text` | the `str` operations used: `isspace`, `strip`, `split()`, `split(sep)`, `replace`, `lower` (ASCII letters), `startswith`, `"".join` |
| `Assoc` | Python dictionaries as association lists in insertion order (`d[k] = v`, `d.get(k)`, `d.update(e)`) |
| `Color` | `ColorHelper`/`ColorFactory`: `hex_to_rgb`, `get_rgb_average`, `getTintedColor`, `rgb_to_hex`; the float `get_mean` of styled_tooltip.py |
| `StyleSheet` | the rule table and its `sel { p: v; } ` text (`generate_style_sheet_content`, `get_properties_string`/`generate_properties_string`) |
| `TooltipCompiler` | `SchemeParser.parse_plist` and `CSSHelper` of all/styled_tooltip.py; all/StyledPopup.py repeats the same text |
| `SchemeCache` | `StyleSheetManager` and `ColorSchemeListener.on_activated_async` of all/StyledPopup.py |
| `PopupBuilder` | `CSSFactory`, `StackBuilder` and `SchemeParser.run` of st3/styled_popup.py |
| `PopupStack` | what the stack of st3/styled_popup.py holds: each property the last key or token translating to it, each selector the properties of the last rule storing under it |
| `PopupCache` | the `StyleSheetManager` of st3/styled_popup.py: lazy load, cache limit, eviction of the oldest entries |
| `LegacyPopup` | the parts of st3/StyledPopup.py that run: `generate_new_property`, `generate_css_properties`, `is_valid_node`, `is_base_style`, `get_node_classes_from_scope`, and `build_stack` up to the undefined `set_scope_style` |
| `LegacyTooltip` | `ParseSchemeCommand` of styled_tooltip.py: `parse_plist`, `get_css_name`, the text of `generate_style_sheet` |

Each compiler is specified the same way. A function folds one step over the nodes of the
scheme (`Compile`, `Build`), and a method made of the loops as written is proved equal to
it (`ParsePlist`, `BuildStack`). Lemmas then state what the table holds:
- which token each property keeps;
- when a node is skipped;
- which selectors a scope yields;
- that a later write replaces an earlier one whole;
- that no selector appears twice.

Where two files have the same text they share one definition:
- The `get_css_name` of all/ and the `get_property_name` of st3/StyledPopup.py share `TooltipCompiler.GetCssName`.
- The serializer of all/ and st3/StyledPopup.py is `StyleSheet.GenerateStyleSheetContent`.
- The tint of all/, st3/styled_popup.py and st3/StyledPopup.py is `Color.TintedColor`.

The caches are classes. The decoded JSON file is a field; the MD5 digest is a function-valued
constant of the class. The scheme's bytes, its decoded nodes and the clock are parameters.

Points where the code differs from what its documentation suggests. The model follows the
code in each case:
- Inner dots of a scope are kept (`comment.line` gives `.comment.line`). Only spaces become
  underscores.
- The tint does no clamping. A channel pushed below 0 is written with a minus sign by `%02x`,
  and one above 255 gets three digits.
- In st3/styled_popup.py, `is_valid_node` requires a non-empty `scope`. The base-style branch
  of `build_stack` therefore never runs, and no `html` rule is produced.
- `is_file_hash_stale` is true when the stored digest EQUALS the current one. It is used that
  way by `is_stylesheet_parsed_and_current`.
- In st3/styled_popup.py, a mapped key with a blank value calls `get_property_default` with
  two arguments. That function takes one, so the call raises TypeError. This is the error
  `DefaultArity`.
- A cache limit below one makes `drop_oldest_stylesheet` delete every entry in memory, then
  fail on `keys[0]` (the error `NothingToDrop`).

## Model

| member | source | states |
|---|---|---|
| `TooltipCompiler.CssNameCases` | all/styled_tooltip.py:110-126 | only `fontStyle`, `background` and `foreground` translate; `fontStyle` gives `font-weight` exactly for `bold`, `text-decoration` exactly for `underline`, and `font-style` otherwise; the names `fontStyle` yields have a default and the colour names have none (also st3/StyledPopup.py:261-278) |
| `TooltipCompiler.PropertyValueCases` | all/styled_tooltip.py:139-145 | a non-blank value comes back unchanged; a blank one gives `normal` for `font-style`/`font-weight`, `none` for `text-decoration`, and None for any other property |
| `TooltipCompiler.TokenValueVerbatim` | all/styled_tooltip.py:40-49 | every token of `split()` is stored verbatim, so the default branch is never taken from `parse_plist` |
| `TooltipCompiler.FlattenNonBlank` | all/styled_tooltip.py:40-41 | every (key, token) pair the two loops visit carries a non-blank token |
| `TooltipCompiler.FlattenMembers` | all/styled_tooltip.py:40-41 | the loops visit (key, token) exactly when some setting under `key` has `token` among its whitespace-separated words |
| `TooltipCompiler.LastIndex` | all/styled_tooltip.py:40-49 | the reference for "last writer wins": the position of the last pair translating to a property, with no later pair translating to it |
| `TooltipCompiler.PairsPropsGet` | all/styled_tooltip.py:40-49 | after the loops a property holds the token of the last pair translating to it, and an untouched property keeps its earlier value |
| `TooltipCompiler.NodePropsGet` | all/styled_tooltip.py:37-49 | a node's property map gives each property the token of its last translating pair, and holds no other property |
| `TooltipCompiler.NodePropsEmpty` | all/styled_tooltip.py:51-52 | a node's map is empty exactly when none of its tokens translates |
| `TooltipCompiler.StepSkips` | all/styled_tooltip.py:31-52 | a node without settings raises KeyError; empty settings, or settings with nothing translatable, leave the table unchanged |
| `TooltipCompiler.StepBase` | all/styled_tooltip.py:54-59 | the base node raises KeyError exactly when no `background` token is present; otherwise it fails on a malformed colour, or stores under `html` its map with `background-color` replaced by the tint of the last background token, and every other selector keeps its rule |
| `TooltipCompiler.PutAllGet` | all/styled_tooltip.py:68-75 | after storing under several selectors each of them maps to the whole property map, replacing what it held, and every other selector is unchanged |
| `TooltipCompiler.StepScoped` | all/styled_tooltip.py:60-75 | a scoped node with a non-empty map is stored under each of its selectors, and other selectors keep their rules |
| `TooltipCompiler.CountLower` | all/styled_tooltip.py:62-65 | lower-casing keeps the number of commas, so the number of pieces does not change |
| `TooltipCompiler.SelectorsShape` | all/styled_tooltip.py:62-73 | a scope yields one selector more than it has commas; each starts with a dot and holds no space |
| `TooltipCompiler.SimpleScopeSelector` | all/styled_tooltip.py:62-73 | a scope without commas, spaces or capitals is one selector, a dot followed by the scope, inner dots kept |
| `TooltipCompiler.AddSettingTokens` | all/styled_tooltip.py:41-49 | the inner loop over one value's tokens leaves the map the fold of the token steps gives |
| `TooltipCompiler.NodeProperties` | all/styled_tooltip.py:37-49 | the two loops over settings and tokens build the node's property map of the specification |
| `TooltipCompiler.ApplyScopes` | all/styled_tooltip.py:62-75 | the loop normalising `scopes[i]` in place stores the map under exactly the specified selectors, in order |
| `TooltipCompiler.ParsePlist` | all/styled_tooltip.py:26-77 | the loop over the nodes returns the table, or the first exception, of the specification `Compile` (also all/StyledPopup.py:49-98) |
| `TooltipCompiler.CompileDistinct` | all/styled_tooltip.py:30-77 | the table `parse_plist` builds holds each selector once |
| `StyleSheet.GetPropertiesString` | all/styled_tooltip.py:129-136 | the declarations of a rule in order, `p: v; ` each, or None (KeyError) for a selector the table lacks (also st3/StyledPopup.py:251-259) |
| `StyleSheet.GetOwnKey` | all/styled_tooltip.py:89-90 | in a table without repeated selectors, looking up the selector of entry i finds entry i |
| `StyleSheet.GenerateStyleSheetContent` | all/styled_tooltip.py:87-93 | the text is every rule, `sel { p: v; } `, in table order (also all/StyledPopup.py:100-106 and st3/StyledPopup.py:142-148) |
| `StyleSheet.GeneratePropertiesString` | st3/styled_popup.py:347-357 | joining the list of declarations gives the same text as the `+=` form |
| `StyleSheet.GenerateStyleSheetContentJoined` | st3/styled_popup.py:184-195 | joining the list of rules gives the same text as the `+=` form; the discarded `sorted` changes nothing |
| `StyleSheet.SerializeConcat` | all/styled_tooltip.py:87-93 | each rule is written on its own: the text of two tables in sequence is the text of their concatenation |
| `StyleSheet.RuleAt` | all/styled_tooltip.py:89-91 | rule i is written right after the rules before it and right before the rules after it |
| `StyleSheet.OneBracePerRule` | all/styled_tooltip.py:87-93 | with brace-free selectors and values the text holds exactly one `{` per table entry |
| `Color.HexToRgb` | all/styled_tooltip.py:169-178 | a successful parse yields at least three channels |
| `Color.ChannelCount` | all/styled_tooltip.py:169-178 | exactly three channels when the number of digits after the `#`s is a multiple of three |
| `Color.ShortHexChannels` | all/styled_tooltip.py:169-178 | a three-digit colour such as `#abc` gives one-digit channels 0..15 |
| `Color.SixDigitChannels` | all/styled_tooltip.py:169-178 | six digits give three two-digit channels |
| `Color.Format02Byte` | all/styled_tooltip.py:180-183 | `%02x` of a byte is two lower-case digits |
| `Color.RgbHexRoundTrip` | all/styled_tooltip.py:169-183 | parsing the encoding of three bytes gives them back |
| `Color.TintedColorShape` | all/styled_tooltip.py:151-162 | when every shifted channel stays in 0..255 the tint is `#` and six lower-case digits, decoding to the shifted channels |
| `Color.TintZeroLowercases` | all/styled_tooltip.py:151-183 | with percent 0 a six-digit colour comes back lower-cased behind a single `#` |
| `Color.ShiftIsDelta` | all/styled_tooltip.py:158-159 | a channel whose shifted value stays non-negative moves by the same amount, `floor(2.56 * percent)` up or `ceil(2.56 * percent)` down |
| `Color.ShiftBelowZero` | all/styled_tooltip.py:158-159 | a channel darkened below zero is truncated toward zero, so it moves one less than `ceil(2.56 * percent)` unless `2.56 * percent` is whole (at 10 percent, 10 becomes -15 while 255 becomes 229) |
| `Color.TintDirection` | all/styled_tooltip.py:151-167 | the channels move up when the integer average is below 128 and down otherwise, all by the same amount, provided no darkened channel goes below zero |
| `Color.ShiftMonotonic` | all/styled_tooltip.py:158-159 | a larger percent moves a channel further in the chosen direction |
| `Color.GetMean` | styled_tooltip.py:114-120 | the loop's result times three is the total of the channels |
| `Color.MeanBelow128` | styled_tooltip.py:103-120 | the float mean is below 128 exactly when the total is below 384 |
| `Color.MeanTintAgrees` | styled_tooltip.py:103-130 | for three channels the float-mean tint and the integer-average tint are the same colour |
| `SchemeCache.ParseScheme` | all/StyledPopup.py:24-32 | `SchemeParser.run` gives the text of the compiled table, or the compiler's exception |
| `SchemeCache.StyleSheetManager.constructor` | all/StyledPopup.py:201-202 | the manager starts over the given file and digest |
| `SchemeCache.StyleSheetManager.GetStylesheets` | all/StyledPopup.py:214-223 | the decoded file, or the empty map when there is no content |
| `SchemeCache.StyleSheetManager.GetStylesheet` | all/StyledPopup.py:249-253 | the entry for a scheme that has one; None (KeyError) exactly when it has none |
| `SchemeCache.StyleSheetManager.CheckFileHash` | all/StyledPopup.py:262-267 | None (KeyError) exactly for a missing entry; true exactly when the stored digest is the digest of the current bytes |
| `SchemeCache.StyleSheetManager.AddStylesheet` | all/StyledPopup.py:241-247 | the file afterwards is the old map with the scheme's entry set to the content and the current digest, every other entry unchanged |
| `SchemeCache.NeedsParseCases` | all/StyledPopup.py:280-281 | the recompile test holds exactly when the entry is missing or its digest is not the current one |
| `SchemeCache.OnActivatedAsync` | all/StyledPopup.py:271-283 | a current entry leaves the file alone; otherwise the scheme is compiled, and it fails exactly when the compiler fails, leaving the file as it was; on success the entry holds the compiled text and the current digest, and no other entry changes |
| `PopupBuilder.PropertyNameCases` | st3/styled_popup.py:359-376 | only `font_style`, `background` and `foreground` translate; `font_style` gives `font-weight` exactly for `bold`, `text-decoration` exactly for `underline`, `font-style` otherwise |
| `PopupBuilder.NoSplitWithoutSpace` | st3/styled_popup.py:385-387 | a value without whitespace is never split |
| `PopupBuilder.NewPropertyUnsplit` | st3/styled_popup.py:334-344 | an unsplit value gives nothing for an unmapped key, one declaration holding the stripped value for a mapped one, and TypeError exactly for a mapped key with a blank value |
| `PopupBuilder.LastToken` | st3/styled_popup.py:329-332 | the reference for the split case: the position of the last token translating to a property |
| `PopupBuilder.SingleTokenGet` | st3/styled_popup.py:330-331 | merging one whitespace-free token sets at most the property it translates to, to the token |
| `PopupBuilder.MergeTokensGet` | st3/styled_popup.py:329-332 | merging the tokens never fails, and each property holds the last token translating to it |
| `PopupBuilder.NewPropertySplit` | st3/styled_popup.py:329-332 | a `font_style` value with a space never fails, and each property holds its last token (`bold italic` gives `font-weight: bold` and `font-style: italic`) |
| `PopupBuilder.NewPropertyErr` | st3/styled_popup.py:325-344 | `generate_new_property` raises exactly for a mapped key whose value is blank |
| `PopupBuilder.CssPropertiesErr` | st3/styled_popup.py:248-255 | the properties of a rule fail exactly when some mapped key has a blank value |
| `PopupBuilder.GenerateNewProperty` | st3/styled_popup.py:324-344 | the recursive method as written computes the specified result |
| `PopupBuilder.GenerateCssProperties` | st3/styled_popup.py:248-255 | the loop over the keys with `update` computes the specified properties or the first error; what each property then holds is `PopupStack.CssPropertiesGet` |
| `PopupBuilder.SeparatedShape` | st3/styled_popup.py:274-279 | after the replacements the scope holds no space, `|`, `(`, `)` or capital letter |
| `PopupBuilder.NodeClassesShape` | st3/styled_popup.py:273-284 | every class is a dot followed by at least one character, none of them a space, comma, `|`, `(`, `)` or capital |
| `PopupBuilder.GetNodeClassesFromScope` | st3/styled_popup.py:273-284 | the method returns the specified classes |
| `PopupBuilder.KeepClasses` | st3/styled_popup.py:280-284 | the loop keeps `"." + piece` for each non-empty piece, in order |
| `PopupBuilder.FilterNonSupportedClasses` | st3/styled_popup.py:286-309 | the loop keeps the specified classes in order |
| `PopupBuilder.FilteredMembers` | st3/styled_popup.py:286-309 | a class is kept exactly when it is an input class with no dot followed by a digit that starts, ignoring case, with a dot and one of the eleven whitelisted roots |
| `PopupBuilder.FilteredConcat` | st3/styled_popup.py:301-307 | filtering keeps the input order: filtering a concatenation is the concatenation of the filtered parts |
| `PopupBuilder.ValidIsNotBase` | st3/styled_popup.py:207-220 | a valid node always has a scope, so it is never the base style |
| `PopupBuilder.ClassKeyOfDotted` | st3/styled_popup.py:262-268 | a class that already starts with a dot is stored under itself with trailing whitespace removed |
| `PopupBuilder.ClassKeySupported` | st3/styled_popup.py:262-268 | the selector a supported dotted class is stored under still starts with a dot and is still supported |
| `PopupBuilder.ApplyAllKeys` | st3/styled_popup.py:262-268 | every selector present after applying supported classes was present before or is a supported dotted class |
| `PopupBuilder.StackBuilder.constructor` | st3/styled_popup.py:201-205 | a new builder has an empty stack |
| `PopupBuilder.StackBuilder.ClearStack` | st3/styled_popup.py:204-205 | the stack is empty afterwards |
| `PopupBuilder.StackBuilder.SetClassProperties` | st3/styled_popup.py:270-271 | the class maps to the properties, every other selector unchanged |
| `PopupBuilder.StackBuilder.ApplyPropertiesToClasses` | st3/styled_popup.py:262-268 | each class, stripped and given a dot, maps to the properties in turn; the resulting table is `PopupStack.ApplyAllGet` |
| `PopupBuilder.StackBuilder.BuildStack` | st3/styled_popup.py:222-246 | the loop over the rules returns the specified table, or the first error, and leaves it in the stack; what each selector holds is `PopupStack.BuildGet` |
| `PopupBuilder.ParseScheme` | st3/styled_popup.py:151-160 | `SchemeParser.run` gives the text of the built table, or the error |
| `PopupBuilder.BuildDistinct` | st3/styled_popup.py:222-246 | the built table holds each selector once |
| `PopupBuilder.BuildKeys` | st3/styled_popup.py:222-246 | every selector of the built table is a supported dotted class, and there is never an `html` rule |
| `PopupStack.ClassKeys` | st3/styled_popup.py:262-268 | one selector per class, in order: the class stripped, with a dot put in front when it has none |
| `PopupStack.ApplyAllGet` | st3/styled_popup.py:262-271 | after storing a map under the classes, each class key maps to the whole map, replacing what it held, and every other selector keeps its rule |
| `PopupStack.LastWrite` | st3/styled_popup.py:248-255 | the reference for "last writer wins" within a rule: the position of the last key or token translating to a property, with no later one translating to it |
| `PopupStack.LastWriteConcat` | st3/styled_popup.py:250-253 | the last writer of two runs of keys in sequence is the last of the second run when it has one, else the last of the first |
| `PopupStack.LastValueConcat` | st3/styled_popup.py:250-253 | writing two runs of keys one after the other leaves each property with the value the second run gives it, or else the value the first run gives it |
| `PopupStack.EntryGet` | st3/styled_popup.py:325-344 | merging the new property of one item sets each property to the last of the item's tokens (or its stripped value) translating to it, and leaves every other property alone |
| `PopupStack.CssPropertiesGet` | st3/styled_popup.py:248-255 | on success each property holds the value of the last key or token of the rule translating to it; a property nothing translates to keeps its earlier value |
| `PopupStack.StackStepGet` | st3/styled_popup.py:226-244 | an invalid rule, or one with no properties, leaves the table as it was; otherwise the rule's properties are stored whole under the key of each supported class and every other selector keeps its rule |
| `PopupStack.LastRule` | st3/styled_popup.py:222-246 | the reference for "a later rule wins": the position of the last rule storing under a selector, with no later rule storing under it |
| `PopupStack.LastRuleCons` | st3/styled_popup.py:226-244 | the last rule storing under a selector is the last among the later rules, or else the first rule |
| `PopupStack.BuildGet` | st3/styled_popup.py:222-246 | in the built table each selector holds the properties of the last rule storing under it, whole, and a selector no rule stores under is absent |
| `PopupCache.StyleSheetManager.constructor` | st3/styled_popup.py:33-38 | nothing in memory; the limit is the setting or 5 |
| `PopupCache.StyleSheetManager.GetStylesheets` | st3/styled_popup.py:57-65 | memory is filled from the file when empty, and the entries seen do not change |
| `PopupCache.StyleSheetManager.IsStylesheetParsedAndCurrent` | st3/styled_popup.py:40-46 | true exactly when the scheme has an entry whose digest is the current one |
| `PopupCache.StyleSheetManager.SaveStylesheets` | st3/styled_popup.py:70-78 | the file and memory both hold the map |
| `PopupCache.OldestExists` | st3/styled_popup.py:116-122 | a non-empty cache has an entry of least time |
| `PopupCache.StyleSheetManager.DropOldestStylesheet` | st3/styled_popup.py:113-125 | it succeeds exactly when the limit is at least one; it then keeps a subset with one place free, drops no entry newer than one it keeps, and saves; otherwise memory ends empty and nothing is saved |
| `PopupCache.StyleSheetManager.AddStylesheet` | st3/styled_popup.py:88-98 | with a limit of at least one the scheme's entry holds the content, the current digest and the time; the cache holds at most the limit; other entries are old ones, unchanged, and none dropped is newer than one kept; exactly: the new cache is the old one (or, when it was full, the `limit - 1` newest-kept entries `drop_oldest_stylesheet` leaves) with the scheme's entry set (`AddedTo`) |
| `PopupCache.AddedToShape` | st3/styled_popup.py:88-98 | after an add the scheme holds its new entry, every other entry is an old one unchanged, a full cache keeps exactly `limit - 1` old entries, the scheme's own among them or not (so `limit - 1` others when the scheme is new, and `limit - 1` or `limit - 2` when it was cached), and a cache with room keeps them all |
| `PopupCache.StyleSheetManager.GetStylesheet` | st3/styled_popup.py:100-111 | a current entry is returned and nothing changes; otherwise the scheme is recompiled, failing exactly when the compiler fails or the limit is below one; the entry returned has the current digest; a recompiled entry is added as `add_stylesheet` adds it, the other entries kept as `AddedTo` states, and the file saved; a compiler error leaves the entries and the file as they were, and a limit below one empties memory and leaves the file |
| `LegacyPopup.NewProperty` | st3/StyledPopup.py:234-249 | at most one declaration, holding the stripped value; nothing exactly for a key other than the three mapped ones; TypeError exactly for a mapped key with a blank value |
| `LegacyPopup.TokenProperty` | st3/StyledPopup.py:199-201 | merging the property of a whitespace-free token is one step of the all/ compiler for that token |
| `LegacyPopup.UpdateTokens` | st3/StyledPopup.py:199-201 | the loop over one value's tokens gives the fold of those steps |
| `LegacyPopup.GenerateCssProperties` | st3/StyledPopup.py:196-203 | never fails, and yields exactly the property map the all/ compiler builds from the same settings |
| `LegacyPopup.InvalidNodeHasNoProperties` | st3/StyledPopup.py:159-166 | a node that is not valid has no settings or yields no property; a valid node without a mapped key yields none either |
| `LegacyPopup.GetNodeClassesFromScope` | st3/StyledPopup.py:215-218 | one piece more than the scope has commas; the first starts with a dot; joining them on commas gives back `"." + scope.lower()` |
| `LegacyPopup.LastBase` | st3/StyledPopup.py:168-193 | the reference for "a later base style wins": the position of the last node without a scope that has properties, with no later one |
| `LegacyPopup.LastBaseCons` | st3/StyledPopup.py:178-193 | the last base node is the last among the later nodes, or else the first node |
| `LegacyPopup.BuildFromErr` | st3/StyledPopup.py:174-210 | the loop raises (the AttributeError of the undefined `set_scope_style`) exactly when some node with properties has a scope |
| `LegacyPopup.BuildFromGet` | st3/StyledPopup.py:174-206 | a run that does not raise changes only `html`, which holds the properties of the last base node, whole; the stack is unchanged without one |
| `LegacyPopup.BuildCases` | st3/StyledPopup.py:174-193 | from the cleared stack: it raises exactly when a node with properties has a scope, and otherwise holds at most `html`, the properties of the last base node |
| `LegacyPopup.PiecesNotNormalised` | st3/StyledPopup.py:215-218 | for every scope only the first piece gets a dot; every later piece is the comma piece of the lower-cased scope as it stands, neither prefixed nor stripped (`a, b` gives `.a` and ` b`) |
| `LegacyTooltip.GetCssNameCases` | styled_tooltip.py:80-84 | only `background` and `foreground` translate, as in the all/ compiler, and `fontStyle` does not |
| `LegacyTooltip.SettingsPropsOther` | styled_tooltip.py:55-60 | no property other than the two colour properties is ever set |
| `LegacyTooltip.SettingsPropsGet` | styled_tooltip.py:55-60 | a colour property holds its setting's value verbatim, or keeps its earlier value when the key is absent |
| `LegacyTooltip.NodePropsValues` | styled_tooltip.py:54-60 | `background-color` is the `background` setting and `color` the `foreground` setting, verbatim, and nothing else is set |
| `LegacyTooltip.StepSkips` | styled_tooltip.py:49-52 | missing settings raise KeyError; empty settings leave the table unchanged |
| `LegacyTooltip.StepScoped` | styled_tooltip.py:68-76 | a scoped node with settings is stored under each of its selectors, even when its map is empty; other selectors keep their rules |
| `LegacyTooltip.StepBase` | styled_tooltip.py:63-67 | the base node raises KeyError exactly without a `background` setting; otherwise it fails on a malformed colour or stores under `html` a rule with margin `2px`, padding `1em`, the tinted background and the foreground, other selectors unchanged |
| `LegacyTooltip.BaseRuleValues` | styled_tooltip.py:63-67 | the `html` rule fails with KeyError exactly when the map has no `background-color`, fails on a malformed colour, and otherwise holds margin `2px`, padding `1em`, the tint of the background and the unchanged `color` |
| `LegacyTooltip.NodeProperties` | styled_tooltip.py:54-60 | the loop over the settings builds the specified map |
| `LegacyTooltip.ParsePlist` | styled_tooltip.py:47-78 | the loop over the nodes returns the table, or the first exception, of the specification `Compile` |
| `LegacyTooltip.CompileWellFormed` | styled_tooltip.py:47-78 | the table holds each selector once, and each rule each property once |
| `LegacyTooltip.OwnValue` | styled_tooltip.py:92-93 | `dict[style][attrib]` finds the declaration being written |
| `LegacyTooltip.AppendProps` | styled_tooltip.py:92-93 | the inner loop appends every declaration as `p: v;`, in order |
| `LegacyTooltip.AppendRule` | styled_tooltip.py:90-95 | one rule is written as `sel {`, its declarations, then `} ` |
| `LegacyTooltip.GenerateStyleSheet` | styled_tooltip.py:86-95 | the text is every rule of the table in order, in the compact form |
| `LegacyTooltip.CompactSerializeConcat` | styled_tooltip.py:89-95 | each rule is written on its own: the text of two tables in sequence is the text of their concatenation |
| `LegacyTooltip.ParseScheme` | styled_tooltip.py:32-45 | `run` gives the compact text of the compiled table, or the compiler's exception |
| `Text.Strip` | all/styled_tooltip.py:140 | the stripped string neither starts nor ends with whitespace, and it is empty exactly when the string is blank |
| `Text.WordsShape` | all/styled_tooltip.py:41 | every word of `split()` is non-empty and free of whitespace |
| `Text.SplitOn` | all/styled_tooltip.py:65 | one piece more than there are separators, no piece holding the separator |
| `Text.SplitOnJoin` | all/styled_tooltip.py:65 | joining the pieces on the separator gives back the string |
| `Text.ReplaceAll` | all/styled_tooltip.py:73 | only characters of the string and of the replacement occur, and a one-character pattern not in the replacement is gone |
| `Text.LowerKeeps` | all/styled_tooltip.py:62 | lower-casing keeps every character other than a letter |
| `Assoc.Put` | all/styled_tooltip.py:49 | the key maps to the value, every other key as before; an existing key keeps its place and a new one is appended |
| `Assoc.UpdateGet` | st3/StyledPopup.py:201 | after `update` a key of the new items maps to its new value and any other key to its old one |

## Left out

- The host API: `load_binary_resource`, `load_resource`, `packages_path`, `load_settings`, `show_popup`, `os.path.isfile` and file writes. These are I/O. The files are fields and the scheme's bytes are parameters.
- `readPlistFromBytes`, `sublime.decode_value` and `encode_value`. These are foreign decoders. The compilers take the decoded nodes, and the caches hold the decoded map.
- `hashlib.md5`. It is a function-valued parameter of each cache.
- `time.time()`. It is the parameter `now`.
- `expand_scheme_variables` in st3/styled_popup.py. It is a regular-expression rewrite fed to `sublime.expand_variables`, a foreign call. The rules are taken after expansion.
- The source of the colour scheme. The all/ `SchemeParser.run` reads the active view's scheme; here the scheme is the `root` parameter of `SchemeCache.ParseScheme`.
- Floating point in the tint. The model computes `rgb[i] + 256 * (percent / 100) * mode` exactly and truncates toward zero. The source converts the channel to a float first, so the two agree only for channels below 2^53 (the percent the compilers use is 10; a channel that large always darkens, since lightening needs a mean below 128). For larger channels the float sum is rounded: `"#" + "20000000000001" * 3` has channels 2^53 + 1, which the source darkens to 9007199254740966 where the model gives 9007199254740967.
- The OverflowError of that float conversion. A channel of 2^1024 or more makes `rgb[0] + delta` raise in the source; the model returns a colour.
- The float mean of styled_tooltip.py. It is an exact rational here, which agrees with the float only while the total of the channels stays below 2^53.
- `int(s, 16)` leniency. Surrounding whitespace, a sign and a `0x` prefix are accepted by the source and rejected here, and so are non-ASCII Unicode decimal digits such as `'٣'` (U+0663), which `int` reads as their digit value while `Color.HexDigitValue` accepts only `0-9`, `a-f` and `A-F`.
- Unicode in `lower()` and in `re.IGNORECASE`. Only the ASCII letters are case-folded.
- Values that are not strings. Every setting value is a string.
- JSON entries that lack `content`, `hash` or `time`. Every cache entry is complete.
- The `time` of an entry, which is an `int` here rather than a float.
- Dictionary order. Python 3.3's dictionaries are unordered; the model uses insertion order. Nothing proved depends on which of several equally old entries is evicted.
- The re-entrancy flags `running`/`RUNNING`, `plugin_loaded`, `add_listener`, `scheme_changed` and the listener registration. They are host event plumbing. The flag is reset only when a run succeeds: an exception of `parse_plist` (styled_tooltip.py:38-45, all/styled_tooltip.py:212-219), such as the KeyError of a node without `settings` or of a base node without `background` (`MissingSettings`, `MissingBackground` here), leaves it set, and from then on every run and every `scheme_changed` returns at once (styled_tooltip.py:35-36 and 141-145, all/styled_tooltip.py:209-210 and 242-246) until the plugin is reloaded. That stuck state is not modelled: each `ParsePlist` here is a run of its own.
- The `StyledTooltipCommand`, the test commands and the HTML wrapping of `show_popup`. These are host-only.
- The `if view == None: return` guard of `on_activated_async` (all/StyledPopup.py:274-275). A view is always given here; its scheme name and bytes are parameters.
- The `print` calls (all/StyledPopup.py:27 and 157, all/styled_tooltip.py:144, st3/styled_popup.py:154, st3/StyledPopup.py:123, styled_tooltip.py:139). They only write to the console.
- Parts of st3/StyledPopup.py that cannot run:
  - its `StyleSheetManager`: `is_file_hash_stale`, `get_stylesheet` and `is_stylesheet_parsed_and_current` call each other without end, and `os.path.join` is given a list;
  - `build_stack` past its first scoped node with properties, where it calls the undefined `set_scope_style`; the model stops there with `NoSetScopeStyle`. It also returns nothing, so no caller gets the stack;
  - `SchemeParser.run`, which calls the missing `create_css_stack`.
- The file write at the end of `generate_style_sheet` in styled_tooltip.py. The model stops at the text it writes.
- PopupBuilder.GetNodeClassesFromScope: its loop over the pieces is the helper method `KeepClasses`. The string replacements are computed before the loop, which keeps the proof small. The result is the same.
