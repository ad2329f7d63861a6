# PCRE 7: compiler, two matchers, and the analyses they trust

This project models the regular expression engine under `pcre/` (byte mode, 2-byte links, one-byte
newline, caseful matching) and proves what it promises about it. The patterns are those of the plain
fragment: literals, negated literals, the types `\d \D \s \S \w \W`, dot, 256-bit classes, greedy, lazy
and possessive repeats of these, capturing and plain groups, alternation, and greedy and lazy group
repeats of every kind.

How the parts fit together:

- `Regex` gives patterns and their meaning: which substrings a pattern matches. `Tree` and `Semantics` do
  the same for compiled code, seen as a tree of brackets and items; `Layout` says which bytes encode a tree.
- `Compile` is the translation from patterns to trees, `Sizing` the first pass that only measures, `Emit` the
  bytes, and `Compiler` the code of `compile_regex()` and `compile_branch()` that writes, moves, copies and patches
  them in one vector. `AutoPossess`, `Emptiness`, `FirstByte`, `DotStar`, `Study`, `Lookbehind` and `Numbering` are the analyses made on the way; `StudyExact` says that the
  start map has no byte too many, and `Brackets` that capture numbers follow the opening parentheses.
- `Machine` turns the meaning into single moves; `Search` is the backtracking search as a function with a
  budget of calls; `Captures`, `Participation`, `Topmost`, `Record`, `Overflow` and `Restore` are about what it leaves in the
  vector after success and after failure, `Progress`, `Loops` and `Budget` about how long it takes. `Matcher` is `match()` itself on the bytes, changing its vector in place.
- `Ordered` lists the places where code can end in the order of preference, and `RegexOrder` does so for patterns and proves that compilation
  keeps the order. `Preference` proves that the search reports the first of them, if no mark is in the way of another; `Marks` is about what the
  remembered group starts make of the search in general and when they are the true ones, and `Tangle` is an input on which they are not.
- `DfaStates` and `DfaExact` are about the states (code offset, count) of the other matcher, `Dfa` is
  `internal_dfa_exec()` with its two state vectors.
- `Exec` is `pcre_exec()`, and `Pcre` puts everything together: for a pattern and a subject, compiling and executing
  finds the first start at which the pattern means there is a match, and both matchers agree.
- `Utf8`, `Xclass`, `Names`, `Quote` and `Replace` are about the functions around the engine.

## What was found

Where the code does not do what one would expect, the model does what the code does.

- `could_be_empty_branch()` does not recognize brackets in the S form and scans into their first branch
  (pcre/pcre_compile.c:1607, 1579). `(?:(?:a|b*)+)+` is therefore compiled without the check for empty iterations, and at
  the end of any subject `match()` runs into its call limit (`Pcre.LoopsNeverEnd`). `Emptiness.TrapExact` and
  `Loops.GuardedExact` say exactly which unlimited groups are compiled without a check that they need. `Loops.GroupEnds` says what
  that means for a group whose inner loops are in order: in all surroundings whose loops are in order some limit suffices, exactly if the group has the check or cannot be empty.
  `Loops.NeverEnds` has the failing half in any surroundings: a greedy loop exhausts every limit at the end of the subject, a lazy one if what follows fails there.
- `check_auto_possessive()` takes an item for optional only if its quantifier is written `*`, `?` or `{0,`
  (pcre/pcre_compile.c:2121). In `a*b{0}a` the first repeat becomes possessive, and the pattern no longer matches what it
  means (`Pcre.HiddenZero`). `AutoPossess.PreservedExact` is the exact condition, for every item, next item and quantifiers: possessification
  keeps the meaning, whatever follows, exactly if the next item must occur and no byte matches both items. Since the check takes sets of types for disjoint,
  the second part depends on the tables: it holds for all items exactly if they are ASCII tables (`AutoPossess.AutoExact`).
- `find_fixedlength()` treats a repeating ket like an ordinary one (pcre/pcre_compile.c:1215-1219): a lookbehind branch with
  such a group can succeed although nothing before the point matches (`Lookbehind.LandsBeyond`). All matches have the
  computed length exactly if the branch has no repeating kets, as long as each of its items can match something (`Lookbehind.FixedExact`).
- `set_start_bits()` looks for the first branch of a capturing bracket in the S form two bytes too early and takes the high
  byte of its number for an opcode (pcre/pcre_study.c:133). Below bracket 1536 it then gives up; for a high byte from 6 to 11 it takes it for a type, for 28 and 29 for a
  literal that must occur. The answer is right nevertheless, for every match on every subject, exactly if the bracket cannot be empty or another branch says that it can, and what its
  first branch can begin with is collected all the same (`Study.NumberMistaken`). It also
  does not step over a SKIPZERO before it follows links (pcre/pcre_study.c:222-225): it reads an opcode as a part of the link and leaves any code of less than 24064 bytes
  (`Study.SkipZeroAstray`). Both matter only where the scan gets to: `Study.Tame` and `Study.Sober` follow it item by item.
- The DFA matcher counts a vector that is exactly full as too small from the second match on
  (pcre/pcre_dfa_exec.c:632-634): `Dfa.DfaRun.Exec`.
- When another iteration of an unlimited bracket in the S form is started, the position is remembered twice (pcre/pcre_exec.c:599-604, 1281-1297), and the
  second mark stays behind when the loop is left. In `(?:a(?:b|)*|d|)*` on "abd" the inner loop ends at 2 with an empty iteration, the closing bracket of the
  outer one finds its mark, and does not start the iteration that would match "d": `match()` reports the match that ends at 2, the pattern prefers the one that ends at 3
  (`Tangle.MarkInTheWay`). No match is lost by it (`Search.SearchExact`), but it can be the wrong one. `Marks.LoopExact` is the exact condition for each loop in its surroundings: all
  refusals are of iterations that consumed nothing, exactly if the body cannot be empty or something has to be consumed between the loop and the closing bracket of
  the next checked group around it. Where that holds for all loops of a pattern, and no loop lacks its check, the reported end is the preferred one (`Preference.SearchPrefers`, `Exec.Direct`).
- A failed attempt inside a capturing bracket can leave that bracket's own data slots changed, because closing the bracket has set them
  (`Restore.LeftBehind`); they are put back when the bracket itself fails. A failed attempt always leaves the vector as it was exactly if no open bracket has slots in it (`Restore.TracelessExact`).
  `match()` computes the whole vector that the search describes, after success and after failure (`Matcher.MatchData.Match`).
- The comment in pcre/pcre_valid_utf8.c:66-68 says that 0xd000 to 0xdfff are excluded; the code excludes 0xd800 to 0xdfff.
- That a bracket was closed for which the vector has no room is noted once for all attempts (pcre/pcre_exec.c:1233, 4595), so the returned count can be 0 although all brackets on
  the way of the reported match have their slots (`Overflow.NotedInVain`): `Exec.PcreExec` says when it must be 0 and when it cannot.
- `QuoteMeta()` writes NUL as `\0`, which a following octal digit changes (pcre/pcrecpp.cc:466-467): `Quote.QuoteExact`.

## Model

| member | source | states |
|---|---|---|
| `Pcre.FindPattern` | pcre/pcre_compile.c:6161-6331 | Compiling and then executing reports a match at the first permitted start at which the pattern means there is one, with the captures and the count described at `Exec.PcreExec` and, if no mark is in the way and no check is missing in its code, the end that the pattern prefers; or that there is none. It fails to compile exactly when the measured length exceeds the maximum, and can give up only where the call limit is too low |
| `Pcre.BothMatchers` | pcre/pcre_dfa_exec.c:452-2471 | On the same code and start the DFA ends are all and only the matches of the pattern; match() succeeds exactly if there is one or gives up where the call limit is too low, its end is among them, and the first recorded one is the longest. The DFA returns -1 if there is no match, 1 if there is one and room for it, the number of matches if twice that number is less than the even part of the vector, and otherwise 0 |
| `Pcre.PcreStudy` | pcre/pcre_study.c:506-584 | The map is for every subject. With a map no match is empty, and every match starts at a byte whose bit is set. For a pattern that is not anchored, has no first byte and is not bound to line starts, and whose code the scan can read: there is a map unless the pattern matches the empty string at the end of every subject, and a byte is in it exactly if some match on some subject begins with it (for patterns without written possessive quantifiers whose items can all match something). Other opcodes, where the scan gets to them, mean that there is none; mistaken numbers are as in `Study.NumberMistaken` |
| `Pcre.StudySound` | pcre/pcre_exec.c:4715-4724 | SSB_DONE for the whole pattern and the collected bits make skipping other starts safe |
| `Pcre.StudyAnswer` | pcre/pcre_study.c:559-577 | The answer of the scan is about empty matches: if it says that each branch must begin with something there are none, and otherwise, for code it can read, there is one at the end of every subject |
| `Pcre.StudyTight` | pcre/pcre_study.c:82-106 | For code that the scan can read, a byte is in the map if and only if it is the first byte of some match on some subject |
| `Pcre.LoopsEnd` | pcre/pcre_exec.c:585 | If no unlimited group that can be executed is trapped, some call limit suffices for every start in the subject (enough, not necessary; exact for each group in `Loops.GroupEnds`) |
| `Pcre.LoopsNeverEnd` | pcre/pcre_compile.c:1604-1627 | A pattern whose outer loop falls into the trap matches the empty string at the end of every subject, and there every call limit is exhausted |
| `Pcre.HiddenZero` | pcre/pcre_compile.c:2118-2121 | c*d{0}c means a match of "c", but its code has none: an instance of `AutoPossess.PreservedExact` |
| `Exec.PcreExec` | pcre/pcre_exec.c:4652-4869 | The accelerated loop (first byte, line starts, start map, required byte with remembered position, anchoring by .*) returns the first start that has a match, and a match from there, or that no start has one; the end is the one that the pattern prefers under the condition of `Exec.Direct`. Capture n belongs to the n-th opening parenthesis and holds where that was last opened and closed on the way to the end, or is unset if it was never closed. The count is at least 1 and comes just above the highest set capture, unless a parenthesis has no room in the vector: then it can be 0, and is 0 if such a one was closed on the way. After a failure all data and working slots of the brackets are unset |
| `Exec.Attempt` | pcre/pcre_exec.c:4798-4800 | One call of match(): a match of the pattern with right captures and, under the condition of `Exec.Direct`, the end that the pattern prefers; or no match from this start and an unchanged vector; or an exhausted limit |
| `Exec.Advance` | pcre/pcre_exec.c:4680-4724 | No start that is passed over has a match, whichever of the three ways is used |
| `Exec.FindLine` | pcre/pcre_exec.c:4698-4699 | The next start behind a newline, or the one beyond the end |
| `Exec.RequiredMissing` | pcre/pcre_exec.c:4752-4794 | If the required byte does not occur from the search point on, neither this nor any later start has a match |
| `Exec.MatchBack` | pcre/pcre_compile.c:5802-5848 | If all branches start with an unlimited dot, a match that starts behind a byte that the dot matches could have started at that byte |
| `Exec.NoneBehind` | pcre/pcre_exec.c:4694-4699 | Behind a failed start no start is any good up to the next newline, or at all if the dot matches newlines |
| `Exec.FindByte` | pcre/pcre_exec.c:4771-4777 | The first occurrence of a byte, or the end |
| `Exec.FindBits` | pcre/pcre_exec.c:4715-4724 | All bytes before the result are outside the map |
| `Exec.Reset` | pcre/pcre_exec.c:4656-4664 | All data slots that brackets of the pattern can use are unset; the rest of the vector is left alone |
| `Exec.ResetWorking` | pcre/pcre_exec.c:4602-4614 | All working slots of brackets of the pattern are unset, from the end of the used part downwards; nothing else changes |
| `Exec.CapturesMeaning` | pcre/pcre_exec.c:1222-1239 | After success each numbered substring is inside the match, is counted in the result, and is matched by the parenthesis of that number, the n-th that the pattern opens; it can be unset only if the pattern can be gone through without the parenthesis, by its structure alone |
| `Exec.CountMeaning` | pcre/pcre_exec.c:4911 | The count without overflow is 1, or one more than the number of a parenthesis of the pattern whose substring is set |
| `Exec.WayMeaning` | pcre/pcre_exec.c:1222-1239 | Each substring is where its parenthesis was opened and closed for the last time on the preferred way to the reported end; if one without room is closed there, this is noted |
| `Exec.OverMeaning` | pcre/pcre_exec.c:1233 | The overflow is never noted if there is room for all parentheses, in failed attempts either |
| `Exec.SearchMeaning` | pcre/pcre_exec.c:402-412 | The search from a start finds a match of the pattern exactly if there is one |
| `Exec.BestMeaning` | pcre/pcre_exec.c:402-412 | Under the condition of `Exec.Direct` the end is the first one that the options permit in the order of the pattern |
| `Compiler.PcreCompile` | pcre/pcre_compile.c:6161-6255 | The vector of exactly the measured size holds the code of the whole pattern with correct links, the first and required bytes, the number of brackets, and whether it is anchored or bound to line starts by .*; read from the front, each bracket number in the bytes is one that has occurred or the next one; refused exactly if too long |
| `Compiler.CompileData.CompileRegex` | pcre/pcre_compile.c:5448-5685 | Appends exactly the bytes of the group of the alternatives, never beyond the measured length, numbers the brackets in the order of `Brackets.ChoiceNumbered` and combines the hints of the branches |
| `Compiler.CompileData.Alternatives` | pcre/pcre_compile.c:5493-5678 | While the bracket is open, each ALT links back to the previous header and the opening bracket holds zero |
| `Compiler.CompileData.ReverseLinks` | pcre/pcre_compile.c:5608-5619 | Reversing the chain in place makes every header link forward to the next one or to the end |
| `Compiler.CompileData.CloseBracket` | pcre/pcre_compile.c:5608-5625 | The closed bracket is laid out as its alternatives, with the distance back in the ket |
| `Compiler.CompileData.CompileBranch` | pcre/pcre_compile.c:2463-2640 | Appends the code of the items in order and works out first and required byte |
| `Compiler.CompileData.CompilePiece` | pcre/pcre_compile.c:4993-5150 | One item with its quantifier |
| `Compiler.CompileData.CompileByte` | pcre/pcre_compile.c:3584-3668 | A literal, type or class becomes the code of its quantifier, possessive where the next item permits |
| `Compiler.CompileData.RepeatSingle` | pcre/pcre_compile.c:3670-3806 | The item is overwritten by the STAR, PLUS, QUERY, UPTO and EXACT opcodes for {n,m} |
| `Compiler.CompileData.Possessify` | pcre/pcre_compile.c:4151-4175 | The opcode that becomes possessive is the varying one, after an EXACT if there is one |
| `Compiler.CompileData.RepeatClass` | pcre/pcre_compile.c:3823-3854 | The repeat opcode of a class goes after it, and a class repeated zero times disappears |
| `Compiler.CompileData.RepeatGroup` | pcre/pcre_compile.c:3859-4121 | Replicating, moving and patching a group in place gives the code of the quantified group |
| `Compiler.CompileData.ZeroGroup` | pcre/pcre_compile.c:3893-3959 | The group is moved up for BRAZERO or for BRAZERO and an opening bracket |
| `Compiler.CompileData.AtLeastOne` | pcre/pcre_compile.c:3968-4012 | The minimum number of copies, then the optional copies or the loop |
| `Compiler.CompileData.OptionalCopies` | pcre/pcre_compile.c:4043-4072 | Optional copies are nested, with the open brackets chained through their link fields |
| `Compiler.CompileData.CloseNested` | pcre/pcre_compile.c:4074-4087 | Following that chain closes all nested brackets with correct lengths |
| `Compiler.CompileData.MarkLoop` | pcre/pcre_compile.c:4101-4120 | The last copy gets the repeating ket, and the S form exactly if some branch looks empty |
| `Compiler.CompileData.OpenBracket` | pcre/pcre_compile.c:4981-4985 | The next bracket number and a zero link |
| `Compiler.CompileData.Insert` | pcre/pcre_compile.c:3922-3930 | Moving up within the vector |
| `Compiler.CompileData.Copy` | pcre/pcre_compile.c:4064 | Copying within the vector |
| `Compiler.CompileData.Put` | pcre/pcre_internal.h:298-300 | Storing a 2-byte link |
| `Compiler.LinkedAlts` | pcre/pcre_compile.c:5608-5625 | The forward chain of headers is the layout of the alternatives |
| `Compiler.CloseStep` | pcre/pcre_compile.c:4077-4086 | What one pending bracket holds, and what closing it makes of the bytes |
| `Compiler.ChoiceWf` | pcre/pcre_compile.c:3698-3794 | Compiled code uses only the repeat opcodes that exist, with counts that fit |
| `Emit.GrpHeld` | pcre/pcre_internal.h:631-787 | The bytes of a group are a correct layout of it wherever they are put |
| `Sizing.ChoiceFits` | pcre/pcre_compile.c:5478-5485 | For every pattern the length accumulated by the first pass is at least the length of the code, and equal to it unless a single byte is repeated zero times |
| `Sizing.ReplicatedExact` | pcre/pcre_compile.c:3976-4041 | The closed formulas for replication equal the number of bytes emitted, for every quantifier |
| `Sizing.PieceFits` | pcre/pcre_compile.c:2505-2521 | An item needs at most what is counted for it, although it is written before its quantifier is seen |
| `Compile.ChoiceExact` | pcre/pcre_compile.c:5494-5530 | Code of alternatives matches exactly what the alternatives mean, under the same guard |
| `Compile.BranchExact` | pcre/pcre_compile.c:2463-2640 | Code of a branch matches exactly what the branch means, including automatic possessification, if every byte that becomes possessive is safe in the sense of `AutoPossess.PreservedExact` |
| `Compile.GroupExact` | pcre/pcre_compile.c:3859-4121 | For every body and {n,m}, limited or not, the replicated code matches exactly n to m repetitions |
| `Compile.PlainExact` | pcre/pcre_compile.c:3698-3794 | For every {n,m} the opcodes for a single byte match exactly n to m bytes, the possessive forms only where no further byte is possible |
| `Compile.ByteExact` | pcre/pcre_compile.c:3823-3854 | The same including classes |
| `Compile.AutoSafe` | pcre/pcre_compile.c:3616-3623 | Where the next item must occur and excludes the repeated one, making the repeat possessive changes nothing |
| `Compile.AutoUnique` | pcre/pcre_compile.c:3616-3623 | There is then only one place where the repeat can end, in whatever mode |
| `AutoPossess.AutoExact` | pcre/pcre_compile.c:2124-2364 | Positive answers mean disjoint byte sets for all items, if and only if no byte above 127 has a type, digits are word characters and white space is not |
| `AutoPossess.AutoComplete` | pcre/pcre_compile.c:2124-2364 | With ASCII tables that have digits, white space, letters and other characters, for every literal or type repeated and every literal or type after it (but no type after a negated literal, and no dot): the answer is positive if and only if no byte matches both |
| `AutoPossess.PreservedExact` | pcre/pcre_compile.c:2118-2121 | For every item that some byte matches and every next item that the check takes for disjoint (a possessive one that is): the possessive repeat has the same matches as the plain one before every tail, if and only if the next item must occur and no byte matches both |
| `Emptiness.CouldBeEmptyBranch` | pcre/pcre_compile.c:1574-1736 | The scan of the bytes gives the answer that is defined on the tree |
| `Emptiness.AnyBranch` | pcre/pcre_compile.c:1607-1627 | The same for all branches of a bracket |
| `Emptiness.TrapExact` | pcre/pcre_compile.c:1574-1736 | The answer "not empty" is wrong exactly if the scan stops inside the first branch of an S bracket that can be empty, before things that can be empty |
| `Emptiness.ShelteredExact` | pcre/pcre_compile.c:1597-1603 | With S brackets only behind BRAZERO, BRAMINZERO or SKIPZERO the answer is exact |
| `Emptiness.NullableItems` | pcre/pcre_compile.c:1554-1571 | What "empty" means: no empty match at all, or one at the end of every subject |
| `Loops.GuardedExact` | pcre/pcre_compile.c:4101-4120 | All unlimited groups of compiled code that can be executed are guarded against empty iterations exactly if there are no traps |
| `Loops.ShelteredGuarded` | pcre/pcre_compile.c:4101-4120 | They are if S brackets in their bodies sit only behind BRAZERO, BRAMINZERO or SKIPZERO |
| `Loops.CompiledFlagged` | pcre/pcre_compile.c:4108-4118 | Compiled branches have the S form exactly on unlimited groups that look empty |
| `Loops.NeverEnds` | pcre/pcre_exec.c:1268-1302 | At the end of the subject an unguarded loop around something that can be empty exhausts every call limit, in any surroundings, with any remembered starts and captures; a lazy one if what follows cannot match there |
| `Loops.GroupEnds` | pcre/pcre_exec.c:1187-1302 | An unlimited group whose inner loops are guarded ends in all guarded surroundings within some number of calls, if and only if it has the S form or its body cannot be empty |
| `Loops.PatternNeverEnds` | pcre/pcre_exec.c:1268-1302 | A pattern that is such a loop exhausts every call limit at the end of every subject |
| `FirstByte.ChoiceSound` | pcre/pcre_compile.c:5541-5575 | Every match begins with the first byte and contains the required byte, later than the first byte if there is one |
| `FirstByte.BranchSound` | pcre/pcre_compile.c:5364-5394 | The same along a branch |
| `FirstByte.GroupSound` | pcre/pcre_compile.c:5111-5145 | Taking over the bytes of a group, with zero and repeated minimum |
| `FirstByte.MergeSound` | pcre/pcre_compile.c:5553-5575 | What two alternatives have in common |
| `FirstByte.ChoiceFirst` | pcre/pcre_compile.c:5541-5575 | There is a first byte if and only if every branch begins with that literal, at least once, or with a parenthesis that occurs at least once and all of whose branches do |
| `FirstByte.BranchRequired` | pcre/pcre_compile.c:5364-5394 | The required byte of a branch is the one of the last item that has one: a literal that must occur, other than the first byte unless that must occur twice, or the required or else first byte of a parenthesis |
| `FirstByte.MergeExact` | pcre/pcre_compile.c:5553-5575 | Two alternatives keep a first byte exactly if both have it, and a required byte exactly if both offer it, where a first byte that is given up can be offered |
| `DotStar.StartsWithDot` | pcre/pcre_compile.c:5802-5848 | The scan of the bytes says whether every branch starts with an unlimited dot, greedy, lazy or possessive, in brackets of whatever depth that are not in the S form (is_startline(), and is_anchored() in lines 5726-5777 for the dot that matches newlines) |
| `DotStar.ItemsBack` | pcre/pcre_compile.c:5785-5790 | A match of such code can be extended by the byte before it |
| `DotStar.ChoiceDots` | pcre/pcre_compile.c:5726-5848 | The code of a pattern is found to start with an unlimited dot if and only if in the pattern every branch begins with the dot repeated from zero on without limit, or with a parenthesis that does, occurs at least once, and gets no S form; bytes repeated zero times are passed over |
| `Study.SetStartBits` | pcre/pcre_study.c:107-482 | If the scan gets to no SKIPZERO and to no number that it takes for an option setting, the map gains exactly the bytes of the scan as defined on the tree (mistaken numbers included), and the result is the one defined there; what both mean is in `Study.AltsBegin`, `StudyExact.AltsLegible` and `StudyExact.ChoiceStarts` |
| `Study.ScanBranch` | pcre/pcre_study.c:133-476 | The same for the items of a branch |
| `Study.ScanSingle` | pcre/pcre_study.c:228-460 | The same for one item |
| `Study.ScanNumber` | pcre/pcre_study.c:133 | The high byte of a bracket number is read as an opcode: give up, a type or a literal, and its bits are added |
| `Study.NumberMistaken` | pcre/pcre_study.c:133 | For a capturing bracket in the S form whose number is taken for something that must match, with any other branches: the answer is right for every match on every subject, if and only if the bracket cannot be empty or another branch says so, and every byte with which its first branch can begin is collected from the number or another branch |
| `Study.SkipZeroAstray` | pcre/pcre_study.c:222-225 | The link read at a SKIPZERO is at least 24064 and leads out of any shorter code |
| `Study.AltsBegin` | pcre/pcre_study.c:82-106 | Every match begins with a collected byte, or is empty and the scan goes on, if all mistaken numbers that the scan gets to are harmless |
| `StudyExact.AltsLegible` | pcre/pcre_study.c:166-198 | Where the scan comes to literals, types, classes, their repeats (other than possessive + of a type) and brackets with unmistaken numbers only, the answer is SSB_CONTINUE if the alternatives can be empty and SSB_DONE otherwise |
| `StudyExact.AltsRead` | pcre/pcre_study.c:143-146 | Where there are no mistaken numbers and no SKIPZERO, the scan fails if it comes to anything else |
| `StudyExact.ChoiceStarts` | pcre/pcre_study.c:82-106 | For every byte that the scan of the code collects there is a string that begins with it and that the pattern matches wherever it stands, if all items can match something and no quantifier is written as possessive |
| `Study.AddType` | pcre/pcre_study.c:270-320 | The bits of a type, without the vertical tab for white space |
| `Study.SetBit` | pcre/pcre_study.c:74-80 | Exactly one bit is added |
| `Lookbehind.LandsExactly` | pcre/pcre_exec.c:927-952 | About the relation of matching, not about match(), of which OP_REVERSE is not modelled: without repeating kets, a branch from the computed distance back succeeds exactly if some bytes that end at the current point match it |
| `Lookbehind.FixedItems` | pcre/pcre_compile.c:1183-1353 | Every match has at least the computed length, and exactly that length without repeating kets |
| `Lookbehind.FixedExact` | pcre/pcre_compile.c:1215-1224 | For every branch that has a length, whose items can all match something and whose loops have bodies of non-zero length: all matches on all subjects have the computed length, if and only if there is no repeating ket |
| `Lookbehind.FixedRefuses` | pcre/pcre_compile.c:1183-1353 | For every branch of items that the function understands and that can match something: it is refused if and only if its matches do not all have one length |
| `Lookbehind.LandsBeyond` | pcre/pcre_compile.c:1215-1224 | (?:a)+b has length 2 and succeeds behind the second a of aab from there, where nothing before the point matches: an instance of `Lookbehind.FixedExact` |
| `Lookbehind.FindFixedLength` | pcre/pcre_compile.c:1183-1353 | The scan of the bytes computes the length defined on the tree |
| `Lookbehind.ScanFixed` | pcre/pcre_compile.c:1194-1345 | The same for one branch |
| `Numbering.ChoiceRange` | pcre/pcre_compile.c:4981-4985 | Brackets are numbered from 1 without gaps; in which order is in `Brackets.ChoiceListed` |
| `Numbering.ChoiceNamed` | pcre/pcre_compile.c:4064 | Copies share their number and branches, and no bracket is inside one of the same number |
| `Brackets.ChoiceListed` | pcre/pcre_compile.c:4981-4985 | The parenthesis with number n is the n-th in the list of the capturing parentheses that the pattern opens, an outer one before what it contains, the left before the right |
| `Brackets.ChoiceNumbered` | pcre/pcre_compile.c:4981-4985 | In the code of every pattern, with its copies, each bracket number from the front is one that has occurred or the next one, and all are used |
| `Brackets.ParenNumbered` | pcre/pcre_compile.c:4981-4985 | The opening bracket of a parenthesis has the next number, and what it contains those after it |
| `Brackets.ReadGrpCaps` | pcre/pcre_exec.c:665-668 | The numbers in the bytes after OP_CBRA and OP_SCBRA are those of the tree |
| `Layout.NextHeader` | pcre/pcre_internal.h:302-303 | The link of a header leads to the next alternative, in order, and from the last to the ket |
| `Layout.GroupLeads` | pcre/pcre_exec.c:1148 | Following links from the start of a group lands on its ket |
| `Layout.KetBytes` | pcre/pcre_exec.c:1190 | The ket holds the exact distance back to the opening bracket |
| `Layout.FollowLinks` | pcre/pcre_exec.c:1148 | The loop that follows links ends there |
| `Machine.MachineExact` | pcre/pcre_exec.c:1157-1302 | The end is reached by single moves exactly if the code matches |
| `Machine.NeverReturn` | pcre/pcre_exec.c:590-597 | What can be reached at all can be reached without coming back to the same point |
| `Search.SearchExact` | pcre/pcre_exec.c:608-2446 | Within any budget, a reported end is a match, and failure means that there is none |
| `Search.CallSound` | pcre/pcre_exec.c:582-604 | A reported match can be reached by moves |
| `Search.CallComplete` | pcre/pcre_exec.c:582-604 | Failure with a chain of remembered starts means that nothing is reached except through the points that are being avoided |
| `Search.KetComplete` | pcre/pcre_exec.c:1187-1302 | Cutting off an empty iteration loses nothing |
| `Search.RunEndMax` | pcre/pcre_exec.c:2432-2437 | The longest run within the maximum, after which no further byte is possible |
| `Budget.Threshold` | pcre/pcre_exec.c:585 | A search that ends with some limit makes a number of calls that does not depend on it: with every limit that is not lower the result is the same, with every lower one it is that the limit was reached |
| `Budget.StarCalls` | pcre/pcre_exec.c:2438-2445 | a*b, in a bracket, on m bytes a: one entry for the bracket, one for the branch and one for each length of the run, so m + 3 calls are needed to fail, for all m |
| `Preference.SearchPrefers` | pcre/pcre_exec.c:402-412 | Within any budget, for code whose loops have their checks and leave no marks in the way: the reported end is the first acceptable one in the order of preference, which is defined without marks, and the only such end; after failure there is none |
| `Preference.KetSays` | pcre/pcre_exec.c:1283-1302 | Another iteration is started exactly if this one consumed something: before leaving at KETRMAX, after it at KETRMIN |
| `Preference.TrySays` | pcre/pcre_exec.c:665-753 | Earlier alternatives come first |
| `Preference.DownSays` | pcre/pcre_exec.c:2430-2445 | Greedy repeats go from the longest run down |
| `Preference.UpSays` | pcre/pcre_exec.c:2419-2428 | Lazy repeats go from the minimum up |
| `Preference.ClearKet` | pcre/pcre_exec.c:1195-1201 | What the check at a closing bracket finds in the chain is whether the iteration consumed something |
| `RegexOrder.ChoiceOrder` | pcre/pcre_compile.c:5494-5530 | The ends of compiled alternatives in the order of the code are those of the alternatives in the order of the pattern |
| `RegexOrder.GroupOrder` | pcre/pcre_compile.c:3859-4121 | For every body and {n,m}, limited or not, replication keeps the order of the ends |
| `RegexOrder.ByteOrder` | pcre/pcre_compile.c:3670-3854 | So does splitting a repeated byte or class into opcodes |
| `RegexOrder.AutoOrder` | pcre/pcre_compile.c:3616-3623 | So does possessification before an item that must occur and excludes the byte: the ends given up lead nowhere |
| `RegexOrder.BranchMeans` | pcre/pcre_compile.c:2463-2640 | The ends listed for a branch are exactly those of its matches |
| `Tangle.MarkInTheWay` | pcre/pcre_exec.c:1281-1297 | For the pattern of the two loops above on "abd", with any bytes a and b other than d: the pattern prefers the end 3 and no other, match() reports 2 with every sufficient limit |
| `Marks.LoopExact` | pcre/pcre_exec.c:1195-1201 | For an unlimited group in the S form that can consume something, in any surroundings without other stale marks: every refusal of it and of the groups around it, on every subject, is of an iteration that consumed nothing, if and only if its body cannot be empty or something must be consumed up to the closing bracket of the next group in the S form |
| `Marks.SearchFollows` | pcre/pcre_exec.c:724-753 | For all code: the reported end is the one reached by taking the most preferred move that can succeed at each choice, among the moves that the chain of remembered starts leaves, and the only such end; the captures are the record of these moves; after failure no sequence of these moves reaches the end |
| `Marks.PreferredUnique` | pcre/pcre_exec.c:724-753 | There is at most one such end, and one way to it |
| `Marks.TryFollows` | pcre/pcre_exec.c:665-753 | Among these moves earlier alternatives are preferred |
| `Marks.DownFollows` | pcre/pcre_exec.c:2430-2445 | Greedy repeats prefer more |
| `Marks.UpFollows` | pcre/pcre_exec.c:2419-2428 | Lazy repeats prefer less |
| `Marks.KetFollows` | pcre/pcre_exec.c:1283-1302 | KETRMAX prefers another iteration, KETRMIN prefers to leave, unless the mark found in the chain, its own or a stale one, is at the current position |
| `Record.WrittenClose` | pcre/pcre_exec.c:1222-1239 | While brackets are open: closing one records where it was last opened and is closed now; the captures of the brackets that stay open may be anything, those of the others stay what they are |
| `Record.WrittenResume` | pcre/pcre_exec.c:700-705 | A failed attempt spoils no such record, and takes no note of an overflow back |
| `Overflow.CallNotes` | pcre/pcre_exec.c:1233 | The overflow is never unset again, by success or failure, and never set where all brackets have slots |
| `Overflow.NotedInVain` | pcre/pcre_exec.c:1233 | (a)b or a, on "a" without room for the bracket: the note of the first alternative stays when the second one matches |
| `Captures.CapturesRight` | pcre/pcre_exec.c:665-705 | After success every set capture lies in the match, is counted, and is matched by the branches of its bracket |
| `Topmost.TopmostSet` | pcre/pcre_exec.c:1238 | After success offset_top is 2, or twice the number of a capture that is set, plus two |
| `Participation.MandatorySet` | pcre/pcre_exec.c:1222-1239 | After success the captures of all brackets that every match passes through are set |
| `Participation.DueClose` | pcre/pcre_exec.c:1235-1238 | Closing a bracket sets its capture, and no other bracket unsets it |
| `Captures.CloseData` | pcre/pcre_exec.c:1222-1239 | Closing a bracket records what its branches have matched |
| `Progress.EnoughBudget` | pcre/pcre_exec.c:599-604 | If unlimited groups are guarded, some number of calls suffices, and then the search decides whether there is a match |
| `Progress.Terminates` | pcre/pcre_exec.c:1187-1302 | Each cycle consumes a byte or leaves a group, by a measure |
| `Progress.FitMove` | pcre/pcre_exec.c:1195-1201 | For each open S bracket the chain has a mark between its entry and the current position |
| `Matcher.MatchData.Match` | pcre/pcre_exec.c:582-604 | One call computes the search exactly: outcome, calls used, end, and the whole vector after success and after failure |
| `Matcher.MatchData.Opcodes` | pcre/pcre_exec.c:608-623 | The opcode loop |
| `Matcher.MatchData.Bracket` | pcre/pcre_exec.c:665-753 | Opening brackets |
| `Matcher.MatchData.Capturing` | pcre/pcre_exec.c:680-705 | Saving and restoring the three slots of a bracket |
| `Matcher.MatchData.Branches` | pcre/pcre_exec.c:728-753 | The alternatives in order |
| `Matcher.MatchData.Closing` | pcre/pcre_exec.c:1187-1302 | Closing brackets with captures, the check for empty iterations, and both orders of repeating |
| `Matcher.MatchData.CloseCapture` | pcre/pcre_exec.c:1222-1239 | The data slots and the high water mark |
| `Matcher.MatchData.Slots` | pcre/pcre_exec.c:4593-4594 | Data and working slots of a bracket are different and inside the vector |
| `Matcher.MatchData.Optional` | pcre/pcre_exec.c:1157-1175 | BRAZERO and BRAMINZERO |
| `Matcher.MatchData.Repeated` | pcre/pcre_exec.c:2265-2446 | Minimum, then greedy, lazy or possessive |
| `Matcher.MatchData.Longest` | pcre/pcre_exec.c:2432-2437 | The longest run |
| `Matcher.MatchData.Greedily` | pcre/pcre_exec.c:2438-2445 | Backing off from the longest run |
| `Matcher.MatchData.Lazily` | pcre/pcre_exec.c:2419-2428 | Extending from the minimum |
| `Matcher.MatchData.Class` | pcre/pcre_exec.c:1854-2020 | Classes and their repeat opcodes |
| `Matcher.MatchData.Repeat` | pcre/pcre_exec.c:2196-2262 | Decoding the repeat opcodes of literals, negated literals and types |
| `Matcher.MatchData.End` | pcre/pcre_exec.c:841-861 | The end of the pattern, with PCRE_NOTEMPTY |
| `Restore.CallRestores` | pcre/pcre_exec.c:680-705 | After failure every slot has its old value, except data slots of brackets that were open when the call began |
| `Restore.Untouched` | pcre/pcre_exec.c:700-705 | Where no open bracket has slots a failed call leaves the vector as it was |
| `Restore.TracelessExact` | pcre/pcre_exec.c:680-705 | For every nest of open brackets: attempts at the contents that fail always leave the vector as it was, if and only if none of the brackets has slots in it |
| `Restore.LeftBehind` | pcre/pcre_exec.c:1222-1239 | For any two brackets with slots, the attempt at the contents of the outer one in ((a))b on "ac" fails and leaves its two data slots, and no others, changed |
| `Dfa.DfaRun.Exec` | pcre/pcre_dfa_exec.c:420-2471 | Unless the workspace is too small, the ends found are all and only the ends of matches, the vector holds the longest of them in decreasing order, and the return value is -1 without matches, 1 for one match, their number while twice the number is less than the even part of the vector, and otherwise 0. The workspace is too small only when one of its two lists is full |
| `Dfa.DfaRun.Scan` | pcre/pcre_dfa_exec.c:505-2440 | After processing, the active list holds exactly the states reachable at this position, and the new list exactly those that the byte leads to |
| `Dfa.DfaRun.Process` | pcre/pcre_dfa_exec.c:600-701 | What one state adds to the two lists |
| `Dfa.DfaRun.ProcessItem` | pcre/pcre_dfa_exec.c:1897-2157 | The same for items and their repeats, with the removal that possessive forms make |
| `Dfa.DfaRun.AddBranches` | pcre/pcre_dfa_exec.c:665-685 | The starts of all branches |
| `Dfa.DfaRun.Duplicate` | pcre/pcre_dfa_exec.c:550-559 | Whether a state with the same count is already in the list |
| `Dfa.DfaRun.Record` | pcre/pcre_dfa_exec.c:630-655 | Shifting the pairs and putting the longer match first, within the vector |
| `Dfa.DfaRun.AddActive` | pcre/pcre_dfa_exec.c:234-243 | Adding to the active list unless the workspace is full |
| `Dfa.DfaRun.AddNew` | pcre/pcre_dfa_exec.c:257-266 | Adding to the new list unless the workspace is full |
| `Dfa.DfaRun.Swap` | pcre/pcre_dfa_exec.c:458-466 | The vectors change roles |
| `Dfa.DfaRun.Start` | pcre/pcre_dfa_exec.c:429-442 | The first states and the end state |
| `Dfa.ScanEnd` | pcre/pcre_dfa_exec.c:505-560 | A list that is closed under processing is the list of reachable states |
| `DfaExact.ReachExact` | pcre/pcre_dfa_exec.c:619-655 | The end state is reached at e exactly if the code matches from the start to e |
| `DfaStates.ClosedHasReach` | pcre/pcre_dfa_exec.c:505-560 | Every reachable state is in every set that holds the first states and is closed |
| `Utf8.ValidUtf8` | pcre/pcre_valid_utf8.c:77-160 | A string is accepted exactly if it is a concatenation of encodings of scalar values; otherwise the result is inside the first character that is not one |
| `Utf8.FormedExact` | pcre/pcre_valid_utf8.c:91-158 | A scalar value is encoded at a place exactly if the bytes there have one of the well-formed patterns |
| `Utf8.CheckChar` | pcre/pcre_valid_utf8.c:91-158 | The checks of one character accept exactly these patterns |
| `Utf8.RoundTrip` | pcre/pcre_internal.h:422-434 | Decoding inverts encoding for all values up to 0x7fffffff |
| `Utf8.Ord2Utf8` | pcre/pcre_ord2utf8.c:65-83 | The buffer is filled with the encoding and nothing after it changes |
| `Utf8.GetCharInc` | pcre/pcre_internal.h:422-434 | The macro computes the decoded value and the next position |
| `Xclass.MatchXclass` | pcre/pcre_xclass.c:67-146 | The result is membership in the union of map, singles and ranges, negated if the class is, and nothing is read past the end |
| `Names.NameTable.Insert` | pcre/pcre_compile.c:4612-4642 | The table stays sorted and gains one entry; a duplicate is refused exactly if duplicates are not permitted |
| `Names.NameTable.GetStringNumber` | pcre/pcre_get.c:85-95 | A number is found exactly if the name is defined, and is one of its numbers |
| `Names.NameTable.GetEntries` | pcre/pcre_get.c:135-161 | All the entries of a name and no others |
| `Names.CompareSlot` | pcre/pcre_compile.c:4615-4628 | The comparison with a slot, including prefixes, is the order of strcmp() |
| `Names.SortedInsert` | pcre/pcre_compile.c:4629-4634 | Inserting before the first greater name keeps the order |
| `Quote.QuoteExact` | pcre/pcrecpp.cc:452-484 | Parsing a quoted string gives the string back exactly if no NUL is followed by an octal digit |
| `Quote.QuoteMeta` | pcre/pcrecpp.cc:452-484 | The loop quotes each byte |
| `Quote.QuotedSame` | pcre/pcrecpp.cc:455-478 | A string is its own quotation if and only if it has only ASCII letters, digits, underscores and bytes that are not ASCII; no NUL is left |
| `Quote.LiteralMatch` | pcre/pcre_compile.c:5338-5357 | A pattern of literals matches exactly the string |
| `Quote.LiteralCode` | pcre/pcre_compile.c:5354-5357 | It is compiled into one OP_CHAR for each byte |
| `Quote.QuotedExact` | pcre/pcrecpp.cc:452-484 | For a string without NUL: the quoted string is read as the string, compiled into one OP_CHAR for each byte, and that code matches a whole subject exactly if it is the string |
| `Replace.GlobalReplace` | pcre/pcrecpp.cc:380-439 | The loop ends for every matcher; the result is the string with all matches rewritten and the count their number, where each match is the first found from the end of the one before, passing over an empty match at that end; putting back the text of each gives the original string |
| `Replace.PlanOrdered` | pcre/pcrecpp.cc:388-431 | Replaced matches are in order, do not overlap, and none is empty and at the end of the one before |
| `Replace.EverywherePlan` | pcre/pcrecpp.cc:397-424 | With a matcher that finds an empty match everywhere, what is replaced is every place of the string that is not inside a character or a CR LF that counts as one, each once, and no other |
| `Replace.Skip` | pcre/pcrecpp.cc:397-424 | After an empty match at the end of the one before: behind CR LF if that is a newline, otherwise at the next byte, in UTF-8 mode at the next byte that does not continue a character |

## Left out

- The text of patterns: `compile_branch()` is modelled after tokenizing, except for literals and escapes in `Quote`.
- Caseless matching, inline options, extended mode, `\h \v \R \X \C \K`, anchors and word boundaries, assertions as parts of patterns, atomic groups, back references, recursion, conditions, callouts and verbs.
- Possessive groups and classes, and possessive {1,m} of a single byte: they are compiled into atomic groups.
- UTF-8 mode in compiler and matchers; two-byte and variable newlines; LINK_SIZE other than 2.
- `find_firstassertedchar()`, which adds a first byte for patterns that start with assertions.
- Exec.PcreExec: when the search for the next line gets to the end of the subject, the source also calls `match()` one byte beyond it (pcre/pcre_exec.c:4698-4699); here that start is taken to have no match.
- REQ_VARY: it only decides whether an anchored pattern makes use of its required byte.
- The limits of the compile workspace (ERR52) and the recursion limit.
- Partial matching, DFA restart and shortest match, PCRE_FIRSTLINE, the recursive uses of `internal_dfa_exec()`.
- capture_last, at which only callouts look.
- The bits of the ctypes table are modelled as three booleans for each byte; classes arrive as maps.
- Pcre.FindPattern: the preferred end is not promised for patterns whose code lacks a check or has a mark in the way of another; for these the reported end is what `Marks.SearchFollows` says. The way of which the captures are the record is one through the code, not through the pattern.
- Lookbehind.LandsExactly: the lookbehind assertion itself is not an opcode of the modelled `match()`; the outermost call, which finds OP_END instead of a ket, is not modelled.
- Study.SetStartBits: what is read after a link that leads out of the code, and bracket numbers from 6400 to 6655, whose high byte is taken for OP_OPT and can switch on caseless scanning, or from 8192 on, which no compiled pattern has; requires that the scan does not get there.
- Compile.BranchExact: requires that no byte becomes possessive before an item that may be absent or has a byte in common with it; otherwise the code is wrong before some tail (`AutoPossess.PreservedExact`).
- AutoPossess.CheckAuto: the source also gives up where the text after the next literal begins with `{0,` without being a quantifier, as in `a*b{0,x}`; here the mark belongs to a quantifier.
- Matcher.MatchData.Match: OP_REVERSE and assertions are not among the opcodes.
- Utf8.ValidUtf8: the variant for zero-terminated strings.
- Names.NameTable.Insert: the table is an array of slots of equal size rather than one block of bytes.
- Replace.GlobalReplace: the matcher and the rewriting of one match are parameters.
- Nothing of the daemon around the library: only its headers are there.
