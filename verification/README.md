# Verified models of Nmap's algorithms

The project models the parts of Nmap whose correctness is hardest to see by reading, in
Dafny, and proves what they are for.  `dafny verify dfyconfig.toml` checks everything.

## LPeg: pattern compiler and matching machine (nmap/lpeg.c)

A pattern is a tree (`PegTree`).  Its meaning is a big-step PEG semantics with captures
(`PegSemantics`).  The library compiles the tree to code for a backtracking machine
(`PegMachine`), using static analyses to leave out choice points, share tests, reuse an
enclosing choice, and turn calls into jumps; a last pass threads jumps.

* `PegCode` says which code a tree gets; `PegCompiler` is the in-place code generator, with
  forward labels patched and calls corrected, and is proved to append exactly that code.
* `PegAnalysis` shows that every analysis is sound with respect to the semantics; `PegExact` says
  what they compute, in terms of shortest and longest matches; `PegCharset` does the classification
  of 256-bit character sets.
* `PegSimulation`, `PegSimCases`, `PegLink` and `PegCorrect` prove the contract of `codegen`
  for all its arguments: the follow set, the protecting test and the enclosing choice.
* `PegVerify` and `PegTermination` show that accepted patterns end on every input, and `PegAccepted`
  that the checks reject exactly empty loops and left recursion.
* `PegJumps` and `PegPeephole` show that chains of jumps are finite and that threading them
  changes no result.
* `PegFields` shows that numbers in instructions and capture entries fit into their fields.
* `PegMatch` is the interpreter loop; `PegTheorem` and `PegLibrary` put compiler and
  interpreter together.
* `PegCaptures` treats the capture list: balance, the walks `nextcap` and `findopen`, and when
  the list is the documented one.
* `PegStore`, `PegAssoc` and `PegCells` treat the cells that hold a tree and its final adjustment in
  place; `PegFixed` adds it to the whole, so that the result is about the
  pattern as it was built.
* `PegLoopOpt` and `PegClash` are about the one place where the generated code is wrong.

Where the code departs from its own comments, the model has the code as it is and, beside it,
the repaired form, except in the last case:

* nmap/lpeg.c:1656 generates the body of a loop under the `opt` of the loop, although the
  comment at 1340-1345 allows that only for code that ends where the choice ends.  The flag
  `lo` selects the text (`true`) or the repair (`false`).  `AsWrittenWrong` gives a pattern
  for which the text is wrong, `AsWrittenExact` the patterns for which it is right, and
  `ClashExact` says that these are exactly those for which it generates the intended code.
* nmap/lpeg.c:3084 drops `nullable` for a nested grammar.  `VerifyRule(false, ..)` is the
  text, `VerifyRule(true, ..)` the repair.  What the strict check accepts, the text accepts
  (`StrictAccepted`).  `HiddenRecursionAccepted` gives accepted patterns whose match never ends,
  and `RingOfJumps` one that the compiler itself does not get past: its jumps form a ring.
  Compiling therefore asks that the chains of jumps from the rules end (`Buildable`); every
  pattern that passes the repaired check is buildable (`AcceptedBuildable`), and so are others
  (`HiddenRecursionBuilds`).  `Unmasked` is the condition under which the two checks agree;
  `MaskedYetFineAccepted` shows that it is not needed for the results.
* nmap/lpeg.c:3055 takes it for granted that a look-behind has no calls.  But `lp_behind`
  (2746-2756) asks for a fixed length only, and a predicate counts as length 0 whatever it calls
  (1130-1131).  `LookBackAccepted` gives a pattern that both forms of the check accept and that
  ends only at the start of a subject.  `BackFree` says that no rule leads back to itself through
  a look-behind; `Accepted(true, ..)` includes it, can be tested on the tree, and is enough for
  matching to end (`AcceptedEnds`).  Results that do not need termination do not ask for it, and
  the others hold on every subject on which the pattern has a result.
* nmap/lpeg.c:1046-1063 does not look for captures through calls, so a capture around a call
  can be listed after the captures inside it (`HiddenCapture`).  The semantics has a mode for
  each reading.  They agree if `AllSeen` holds: wherever a capture or look-ahead is coded as if its
  body had no captures (1590 and 1613), none can come up from the rules that the body calls.
  `PlainCapture` and `OpenCapture` are grammars with captures around calls that satisfy it.
* nmap/lpeg.c:1846 steps back by one slot to visit an instruction again, which works only if
  the slot before it is an instruction of size one.  Only the intended form is modelled: the
  pass visits the instruction again.

## Targets (nmap/TargetGroup.cc)

`TargetOctet` is the closure of an octet's bit vector under a netmask, chunk by chunk in place;
`TargetNetmask` lifts it to addresses; `TargetOrder` and `TargetBlock` are the odometer that
enumerates the selected addresses; `TargetText` and `TargetGroup` parse and print expressions,
and `TargetLanguage` says, without reference to parsing, which expressions there are.
The comment before the parser allows empty items (`1,,2`); the code rejects them, and so does
the model.

## Reverse DNS (nmap/nmap_dns.cc)

`DnsState`, `DnsSteps` and `DnsWork` describe requests moving between queues, servers and the
wire, the invariant of that state, and a measure that every move lowers; `DnsEngine` has the
event handlers, each proved to consist of such moves, and the main loop, which ends when the
clock passes every time and writes that are under way end, even if no server ever answers.
`DnsCapacity` is how the capacities of the servers rise and fall, with products in double precision:
for 90, 170 and 180, `0.7` leaves one less than seven tenths.  `DnsPtr`, `DnsReverse`, `DnsWire` and
`DnsRequest` are the codec: names of reverse lookups, domain names in packets with compression, and
requests.

## Idle scan and IPv6 fingerprinting

`IdleScan` is the divide-and-conquer count of open ports (nmap/idle_scan.cc) against an
environment that answers as it likes; `IdleLog` says what the list of all questions and answers
tells about the result.  `FpRounds` is the bookkeeping of fingerprinting probes
(nmap/FPEngine.cc): rounds of timed probes, timeouts, failed sends, and the end of the detection.
Three things there do not do what the comments say:

* A probe that is answered after it was given up is counted twice (nmap/FPEngine.cc:2311-2349),
  and the detection may then never end.  `LateAnswer` gives a run for any number of probes and
  tries, `TallyTotal` and `SettledEnds` the exact condition.
* The main loop (1181-1211) takes a host off its list as soon as `done` (1922-1928) holds, without
  wrapping it up; when the last probe was given up, the best set of answers stays in the auxiliary
  list and is lost.  `LostAnswer` gives a run for any two or more timed probes, `Visit` says
  exactly when the answers that are left are the best set.
* When a timed probe cannot be sent while timed probes have tries left, no new round starts
  (2112-2115 and 2156), and a timed probe without an answer is never given up.  `StalledHost` gives
  a run.  Where no probe was counted twice, timeouts alone end the detection unless it has stalled
  like that (`TimeOutAll`), and never if it has (`Visit`).

## Model

| member | source | states |
|---|---|---|
| PegAnalysis.NullableSound | nmap/lpeg.c:1084-1118 | a pattern that is not nullable consumes at least one character in every match |
| PegAnalysis.NoFailSound | nmap/lpeg.c:1084-1118 | a pattern that cannot fail never fails, on any subject |
| PegAnalysis.FixedLenSound | nmap/lpeg.c:1125-1158 | a non-negative length is the length of every match |
| PegAnalysis.FirstSound | nmap/lpeg.c:1175-1250 | a match that consumes, or is followed by a character of the follow set, starts with a character of the first set; without the empty flag the pattern fails at the end of the subject |
| PegAnalysis.HeadFailExact | nmap/lpeg.c:1257-1279 | a head-fail pattern fails exactly when there is no next character or it is outside the first set |
| PegExact.NullableExact | nmap/lpeg.c:1084-1118 | a pattern is called nullable exactly if the shortest match that its structure allows is empty |
| PegExact.ShortestSound | nmap/lpeg.c:1084-1118 | no match on any subject is shorter than that, and there is none if the structure allows none |
| PegExact.NoFailExact | nmap/lpeg.c:1084-1118 | a pattern is called nofail exactly if no parts, failing together, can make it fail |
| PegExact.FixedLenExact | nmap/lpeg.c:1125-1158 | a length is given exactly if the shortest and the longest match are equally long, and it is theirs |
| PegExact.FirstExact | nmap/lpeg.c:1175-1250 | the first set has exactly the characters that a match may stand before, its own or, where it may be empty, the follow set's; the flag says exactly whether it may stand at the end |
| PegExact.HeadFailShape | nmap/lpeg.c:1257-1279 | a pattern is called head-fail exactly if matching begins with single characters only and nothing after them can fail |
| PegExact.NeedFollowExact | nmap/lpeg.c:1287-1302 | a follow set is worth computing exactly if the code of the pattern ends with a choice or a loop |
| PegCharset.CharsetType | nmap/lpeg.c:955-994 | the loop over the 32 bytes classifies the set of 256 bits as empty, one character (and which), full, or neither |
| PegLink.LinkCorrects | nmap/lpeg.c:1710-1727 | correcting calls changes open calls only; each becomes a call of its rule, or a jump to it where a return follows |
| PegLink.GrammarRulesAt | nmap/lpeg.c:1734-1750 | in the code of a grammar each rule stands at the address that calls to it use, followed by a return |
| PegSimCases.TailCallReturns | nmap/lpeg.c:1719-1722 | a call turned into a jump behaves like the call followed by the return |
| PegCorrect.Sim | nmap/lpeg.c:1784-1809 | contract of `codegen` for all trees, `opt`, `tt` and `fl`: agreement with the semantics, up to failing before a character outside the follow set, and committing the enclosing choice under `opt` |
| PegCorrect.SimRule | nmap/lpeg.c:1734-1750 | running a rule from its address agrees with the meaning of the rule and ends at its return |
| PegTheorem.CompiledCorrect | nmap/lpeg.c:1784-1809 | whatever the semantics says about a pattern, the machine says about its code, with only the base entry left on the stack |
| PegTheorem.ExactWhereItEnds | nmap/lpeg.c:3486-3690 | on every subject on which a pattern has a result the machine halts, and its result is the one of the semantics, in both directions |
| PegTheorem.CompiledExact | nmap/lpeg.c:3486-3690 | for patterns that pass the strict check the machine always halts, and its result is the one of the semantics, in both directions |
| PegTheorem.CompiledDocumented | nmap/lpeg.c:1611-1623 | positions and failures are the documented ones wherever the pattern has a result; captures too if none can come up from the calls in a body that is coded as capture-free |
| PegTheorem.MatchBalanced | nmap/lpeg.c:3653-3686 | the capture list of every match is balanced |
| PegFields.ProgramFits | nmap/lpeg.c:1587-1623 | in every program, each step back is at most 255 and each offset of a full capture at most 15, the limits of their fields |
| PegFields.CaptureSizes | nmap/lpeg.c:3653-3665 | the size of every capture entry of every match is at most 255 |
| PegLoopOpt.AsWrittenExact | nmap/lpeg.c:1643-1679 | the code that the text generates is exact, wherever the pattern has a result, for every pattern in which no loop with a test inherits an `opt` that its body uses |
| PegLoopOpt.AsWrittenWrong | nmap/lpeg.c:1656-1656 | an accepted pattern and a subject for which the text generates code with another result than the semantics |
| PegClash.ClashExact | nmap/lpeg.c:1643-1679 | the text generates the intended code exactly for those patterns |
| PegVerify.VerifySound | nmap/lpeg.c:3047-3087 | a pattern that the repaired check calls not nullable consumes at least one character in every match |
| PegAccepted.CheckLoopsExact | nmap/lpeg.c:3008-3025 | a tree is reported exactly if some loop in it, outside nested grammars, has a body whose shortest match is empty |
| PegAccepted.AnswerExact | nmap/lpeg.c:3047-3087 | when a rule passes the repaired check, it is called nullable exactly if it can be passed without consuming anything, or what is before it can |
| PegAccepted.VerifyExact | nmap/lpeg.c:3047-3087 | the repaired check fails exactly if a chain of calls, each before anything is consumed, passes more rules than are left |
| PegAccepted.LeftRecursiveExact | nmap/lpeg.c:3028-3087 | for a grammar of at most 200 rules: exactly if such a chain comes to some rule twice |
| PegAccepted.RuleAcceptedExact | nmap/lpeg.c:3090-3108 | a rule is accepted exactly if it has no empty loop and does not lead to left recursion; by the check as written too, where no grammar is masked |
| PegAccepted.AcceptedExact | nmap/lpeg.c:3090-3108 | a pattern is accepted exactly if this holds of the initial rule and all called rules of all grammars in it, it has no empty loop, and, for the repaired check, no rule leads back to itself through a look-behind |
| PegTermination.Total | nmap/lpeg.c:3008-3087 | a tree of an accepted grammar ends from every position, by the measure grammar size, look-behinds to come, rest of the subject, left calls, tree |
| PegTermination.AcceptedEnds | nmap/lpeg.c:3090-3108 | every pattern that passes the repaired checks, calls inside look-behinds included, has a result on every subject |
| PegTermination.AcceptedAsWrittenEnds | nmap/lpeg.c:3090-3108 | a pattern that passes the strict check is one that the check as written accepts, and its match ends on every input |
| PegTermination.StrictAccepted | nmap/lpeg.c:3047-3087 | the check as written accepts every grammar that the repaired check accepts |
| PegTermination.UnmaskedAccepted | nmap/lpeg.c:3090-3108 | without a masked grammar the two checks accept the same patterns |
| PegTermination.UnmaskedEnds | nmap/lpeg.c:3090-3108 | what the check as written accepts ends on every input, if no grammar is masked and no rule leads back to itself through a look-behind |
| PegTermination.MaskedYetFineAccepted | nmap/lpeg.c:3083-3084 | a pattern with a masked grammar that both checks accept |
| PegTermination.VerifyAsWritten | nmap/lpeg.c:3047-3087 | where no grammar is masked, the answer of the check as written can be relied on too |
| PegTermination.UnmaskedSame | nmap/lpeg.c:3047-3087 | the check as written and the repaired check agree on every tree without a masked grammar |
| PegTermination.HiddenRecursionAccepted | nmap/lpeg.c:3083-3084 | a pattern that the check as written accepts and that never ends |
| PegTermination.LookBackAccepted | nmap/lpeg.c:2746-2756 | a pattern with a call inside a look-behind that both forms of the check accept, and that ends from the start of a subject only |
| PegTermination.LookBackFineEnds | nmap/lpeg.c:2746-2756 | a pattern with a call inside a look-behind that passes the strict check and ends |
| PegTermination.RuleLevel | nmap/lpeg.c:3054-3056 | where no rule leads back to itself through a look-behind, calls do not raise the number of look-behinds to come |
| PegCaptures.CapsBalanced | nmap/lpeg.c:1611-1623 | the captures of every match form a balanced list |
| PegCaptures.PositionsAgree | nmap/lpeg.c:1587-1623 | how captures are listed never changes where a match ends |
| PegCaptures.NoCaps | nmap/lpeg.c:1046-1063 | a pattern from which no capture can come up, neither its own nor one of the rules whose captures it passes on, lists none |
| PegCaptures.CapsAgree | nmap/lpeg.c:1046-1063 | captures are listed as documented if no capture can come up from a body that is coded as capture-free, in the tree and in the rules whose captures it passes on |
| PegCaptures.CaptureListed | nmap/lpeg.c:1611-1623 | one capture is listed as documented exactly when it is coded in full or its body lists nothing |
| PegCaptures.HiddenCapture | nmap/lpeg.c:1046-1063 | a grammar for which the code lists a capture after the one nested in it |
| PegCaptures.PlainCapture | nmap/lpeg.c:1611-1623 | a capture around a call of a rule without captures is listed as documented |
| PegCaptures.OpenCapture | nmap/lpeg.c:1611-1623 | so is a capture of varying length around a call of a rule with a capture |
| PegCaptures.NextCap | nmap/lpeg.c:446-459 | from a capture to the entry just past its own close |
| PegCaptures.FindOpen | nmap/lpeg.c:432-440 | from a close back to the open it belongs to |
| PegCaptures.PairUnique | nmap/lpeg.c:432-459 | a close belongs to one open and an open to one close |
| PegCaptures.NextThenFind | nmap/lpeg.c:432-459 | `findopen` returns to where `nextcap` started |
| PegSimulation.BacktrackPrefix | nmap/lpeg.c:3616-3627 | a failure restores the captures that the choice was pushed with, whatever was added since |
| PegJumps.LeftLands | nmap/lpeg.c:1508-1512 | from the start of the code of a tree, the chain of jumps passes left calls only and ends |
| PegJumps.CodeJumps | nmap/lpeg.c:1784-1809 | labels of generated code stay inside the program, and each jump goes forward, to a chain that ends, or to the test of its loop |
| PegJumps.ProgramLands | nmap/lpeg.c:1508-1512 | labels stay inside every program of a buildable pattern, and every chain of jumps in it is finite |
| PegJumps.RingOfJumps | nmap/lpeg.c:1508-1512 | a pattern accepted by the check as written for which the search for a final target never ends: it is not buildable |
| PegJumps.AcceptedBuildable | nmap/lpeg.c:3047-3087 | every pattern that passes the repaired check is buildable |
| PegJumps.HiddenRecursionBuilds | nmap/lpeg.c:3083-3084 | a left-recursive pattern that the repaired check rejects and that is buildable all the same |
| PegPeephole.RewriteEquivalent | nmap/lpeg.c:1821-1860 | one rewrite of the pass keeps the result of every state on every subject, in both directions |
| PegPeephole.FinalTarget | nmap/lpeg.c:1508-1512 | the loop ends, at the final target |
| PegPeephole.Peephole | nmap/lpeg.c:1821-1860 | the whole pass, with its second visit to a rewritten jump, keeps all results, and afterwards no label leads to a jump and no jump to an instruction that could replace it |
| PegCompiler.CompileState.CodeChar | nmap/lpeg.c:1428-1434 | appends a character instruction, or the cheaper one under an equal dominating test |
| PegCompiler.CompileState.CodeCharset | nmap/lpeg.c:1455-1472 | appends the instruction for a set, by its kind and the dominating test |
| PegCompiler.CompileState.CodeTestSet | nmap/lpeg.c:1481-1502 | appends the test for a set with an open label, or nothing |
| PegCompiler.CompileState.CodeGen | nmap/lpeg.c:1784-1809 | appends exactly the specified code |
| PegCompiler.CompileState.CodeSeq | nmap/lpeg.c:1765-1777 | appends the code of a sequence, with follow set and dominating test passed on |
| PegCompiler.CompileState.CodeBehind | nmap/lpeg.c:1526-1530 | appends the code of a look-behind |
| PegCompiler.CompileState.CodeChoice | nmap/lpeg.c:1544-1579 | appends the code of a choice in each of its three forms |
| PegCompiler.CompileState.CodeRep | nmap/lpeg.c:1643-1679 | appends the code of a loop in each of its forms |
| PegCompiler.CompileState.CodeNot | nmap/lpeg.c:1689-1703 | appends the code of a negative predicate |
| PegCompiler.CompileState.CodeAnd | nmap/lpeg.c:1587-1603 | appends the code of a positive predicate |
| PegCompiler.CompileState.CodeCapture | nmap/lpeg.c:1611-1623 | appends the code of a capture |
| PegCompiler.CompileState.CorrectCalls | nmap/lpeg.c:1710-1727 | replaces the open calls of a grammar by calls and tail jumps; every search for a final target ends |
| PegCompiler.CompileState.CodeGrammar | nmap/lpeg.c:1734-1750 | appends the linked code of a grammar |
| PegMatch.Matcher.Fail | nmap/lpeg.c:3616-3627 | drops pending calls and resumes at the last choice with the captures it had, or gives up |
| PegMatch.Matcher.Match | nmap/lpeg.c:3486-3690 | the loop ends, no assertion fails, and the result is the one of the machine |
| PegLibrary.Compile | nmap/lpeg.c:1866-1875 | for every buildable pattern, the optimised program gives the same results as the generated one, with all jumps threaded, for either code generator |
| PegLibrary.LpMatch | nmap/lpeg.c:3201-3219 | compiling and running a buildable pattern yields its meaning on every subject on which it has one; with the code generator as written, if no loop misuses `opt` |
| PegFixed.FixedAccepted | nmap/lpeg.c:2213-2239 | the adjustment of an accepted pattern is accepted |
| PegFixed.FixedBuildable | nmap/lpeg.c:2213-2239 | the adjustment of a buildable pattern is buildable |
| PegFixed.MatchPattern | nmap/lpeg.c:3147-3219 | adjusting, compiling and running a pattern gives the documented position or failure of the pattern as it was built, wherever it has one, and its captures if none can come up from a body that is coded as capture-free |
| PegAssoc.FixedRightNested | nmap/lpeg.c:2213-2239 | after the adjustment no sequence or choice outside nested grammars has a first child of its own kind |
| PegAssoc.FixedSame | nmap/lpeg.c:2213-2239 | the adjusted pattern, in the adjusted grammar, gives exactly the outcomes of the original |
| PegStore.BuiltHolds | nmap/lpeg.c:2556-2587 | the cells that the constructors make for a tree hold it, in the sense of the next rows |
| PegStore.HoldsOne | nmap/lpeg.c:2556-2587 | cells hold one tree at most, its called rules and nested grammars included |
| PegCells.RotateHolds | nmap/lpeg.c:2194-2202 | the moved cells hold the rotated tree |
| PegCells.MoveDown | nmap/lpeg.c:2198-2198 | an overlapping move to a lower place |
| PegCells.CorrectAssociativity | nmap/lpeg.c:2191-2203 | the loop ends with the cells holding the fully rotated tree, and no other cell changed |
| PegCells.FinalFix | nmap/lpeg.c:2213-2239 | the cells hold the adjusted tree with its calls linked to their rules; an error exactly when a called rule is missing |
| PegCells.FixGrammar | nmap/lpeg.c:2213-2239 | the same for a whole grammar: every call in it holds the relative place of its rule |
| TargetOctet.ApplyNetmaskOctet | nmap/TargetGroup.cc:395-416 | the vector then holds exactly the values that agree with an old one under the mask |
| TargetNetmask.MaskWidens | nmap/TargetGroup.cc:420-427 | octet by octet, this selects exactly the addresses that share the network bits with an old one |
| TargetBlock.NetBlockIPv4Ranges.ApplyNetmask | nmap/TargetGroup.cc:432-446 | the block then selects the addresses that share their first bits with one that it selected before |
| TargetOrder.SuccessorIsNext | nmap/TargetGroup.cc:365-377 | the odometer's next state is the least selected address above the present one, or there is none |
| TargetBlock.NetBlockIPv4Ranges.Increment | nmap/TargetGroup.cc:365-377 | the loop with carry computes that successor |
| TargetBlock.NetBlockIPv4Ranges.Next | nmap/TargetGroup.cc:338-391 | returns the pending address and goes on to its successor; false, and false from then on, when there is none |
| TargetBlock.NetBlockIPv4Ranges.Enumerate | nmap/TargetGroup.cc:338-391 | all calls together return the selected addresses, each once, in increasing order |
| TargetText.RoundTrip | nmap/TargetGroup.cc:448-489 | parsing the text of four octets gives them back exactly when none is empty, and is an error otherwise |
| TargetLanguage.ParseExact | nmap/TargetGroup.cc:192-256 | a text is accepted exactly if it spells four octets with dots, each a star or a list of numbers and open or closed ranges up to 255, and the vectors then hold exactly what these select |
| TargetLanguage.SpelledAccepted | nmap/TargetGroup.cc:192-256 | every such spelling is accepted |
| TargetText.ReadItem | nmap/TargetGroup.cc:205-236 | reads a number or an open or closed range, or rejects the text |
| TargetGroup.ParseIPv4Ranges | nmap/TargetGroup.cc:192-256 | the pointer-stepping parser computes the grammar's result, into the vectors in place |
| TargetGroup.BitvectorToRangeString | nmap/TargetGroup.cc:448-475 | the nested loops print the maximal runs of the vector |
| TargetGroup.Str | nmap/TargetGroup.cc:477-489 | prints the four octets with dots between them |
| TargetGroup.Reparse | nmap/TargetGroup.cc:192-256 | printing a block and parsing the text gives an equal block exactly when no octet is empty |
| TargetGroup.Targets | nmap/TargetGroup.cc:291-318 | expression and netmask length to addresses: exactly those that share the network bits with an address of the expression, each once, increasing |
| DnsState.Timeouts | nmap/nmap_dns.cc:174-178 | the timeouts are 4000, 4000 and 5000 for one server, 2500 and 4000 for two, 2500 and 3000 for more, and then the sentinel |
| DnsState.TableEnds | nmap/nmap_dns.cc:174-178 | the sentinel stands exactly where a request has used up its tries on a server |
| DnsCapacity.MinorDown | nmap/nmap_dns.cc:529-529 | a capacity times 0.9, in double precision and cut to an integer, is nine tenths rounded down |
| DnsCapacity.MajorDown | nmap/nmap_dns.cc:539-539 | a capacity times 0.7 is seven tenths rounded down, or one less for 90, 170 and 180 |
| DnsCapacity.DownSlows | nmap/nmap_dns.cc:529-540 | what a timeout leaves of a capacity, in integer arithmetic, and never less than 10 |
| DnsState.SentBound | nmap/nmap_dns.cc:478-498 | no request is transmitted more than 3, 4 or 6 times, for 1, 2 or more servers |
| DnsSteps.SendInv | nmap/nmap_dns.cc:433-498 | taking and transmitting a request keeps the invariant |
| DnsSteps.WrittenInv | nmap/nmap_dns.cc:461-473 | so does the completion of a write |
| DnsSteps.RetryInv | nmap/nmap_dns.cc:528-575 | so does a timeout with another try at the same server |
| DnsSteps.MoveOnInv | nmap/nmap_dns.cc:528-575 | so does a timeout that moves the request to the next server |
| DnsSteps.ExhaustedMeans | nmap/nmap_dns.cc:543-551 | a request is given up exactly when it has tried all servers it may try |
| DnsSteps.LeaveInv | nmap/nmap_dns.cc:591-642 | so does a request that is answered, deferred or dropped |
| DnsWork.StepInv | nmap/nmap_dns.cc:433-642 | every move keeps the invariant and lowers the work that is left |
| DnsWork.RunInv | nmap/nmap_dns.cc:433-642 | the invariant holds throughout every run, and no run has more moves than there was work at its start |
| DnsWork.StartInv | nmap/nmap_dns.cc:1093-1117 | the invariant holds at the start, and the work is a fixed amount for each request |
| DnsWork.Progress | nmap/nmap_dns.cc:1138-1154 | when no server can send and requests are left, one of them is on the wire |
| DnsWork.StuckMeansDone | nmap/nmap_dns.cc:1138-1154 | where neither a write nor a timeout can happen any more, no request is left |
| DnsWork.MaximalRunDone | nmap/nmap_dns.cc:1138-1154 | a run that cannot be continued has settled every request: it was resolved, has no name, was dropped or was deferred |
| DnsWork.SilentEnd | nmap/nmap_dns.cc:502-586 | from every state, a run of writes and timeouts alone leads to the end |
| DnsWork.DroppedSpent | nmap/nmap_dns.cc:543-565 | a request is dropped only after as many transmissions as are possible |
| DnsWork.AllDone | nmap/nmap_dns.cc:418-429 | when no request is left, nothing is queued, being written, on the wire or recorded |
| DnsEngine.MassDns.PutOnWire | nmap/nmap_dns.cc:478-498 | marks the server busy, counts the request and sets its deadline from the table |
| DnsEngine.MassDns.DoPossibleWrites | nmap/nmap_dns.cc:433-458 | makes moves only, with deadlines in the future; afterwards every server has something on the wire or nothing to send |
| DnsEngine.MassDns.WriteEvent | nmap/nmap_dns.cc:461-473 | makes moves only, and lowers the work |
| DnsEngine.MassDns.Expire | nmap/nmap_dns.cc:528-575 | takes the request off the wire and lowers the work: it is dropped after its last transmission, else sent again to the same server while tries are left, else moved to the next server; the capacity of its server becomes nine tenths, and seven tenths of these if the request leaves it, at least 10, and no other changes |
| DnsEngine.MassDns.DealWithTimedoutReads | nmap/nmap_dns.cc:502-586 | every request on the wire that is due times out, and nothing happens to the others; afterwards none is due, and the result is the time until the first will be, but at most 500; exactly the servers with a request that was due have lost capacity, unless they were at 10 |
| DnsEngine.MassDns.SettleResult | nmap/nmap_dns.cc:591-642 | a matching answer removes its request for good, counts it by its fate, and raises the capacity of its server by 2 up to 200, and no other; anything else changes nothing |
| DnsEngine.MassDns.ServerFailed | nmap/nmap_dns.cc:625-631 | the request of the record times out as if it were due now: it is dropped, tried again or moved on; the work is lowered, and exactly the servers with a request that was due lose capacity |
| DnsEngine.MassDns.ReadEvent | nmap/nmap_dns.cc:646-785 | a reply about a recorded request settles it with the fate that its answers mean, or makes it time out; any other reply changes nothing |
| DnsEngine.MassDns.CloseServers | nmap/nmap_dns.cc:418-429 | clearing the lists when no request is left changes nothing |
| DnsEngine.MassDns.Round | nmap/nmap_dns.cc:1138-1144 | one round before waiting: the work is lowered if a request was due, something is on the wire unless no request is left, and the time to wait is the one after the timeouts |
| DnsEngine.MassDns.Resolve | nmap/nmap_dns.cc:1138-1154 | under a clock that passes every time for good, whatever is reported meanwhile, the main loop ends, with every request resolved, without a name, dropped or deferred |
| DnsPtr.IpToPtr4 | nmap/nmap_dns.cc:1299-1322 | the loop from the end of the text reverses its dotted parts |
| DnsPtr.IpToPtr6 | nmap/nmap_dns.cc:1323-1341 | the loop writes the nibbles in reverse order |
| DnsPtr.TurnDotted | nmap/nmap_dns.cc:1303-1320 | for the text of an address this is its reverse name |
| DnsPtr.ReadPtr | nmap/nmap_dns.cc:1348-1440 | the backward loops compute what the name leads to |
| DnsPtr.HexAccepts | nmap/nmap_dns.cc:1409-1426 | which characters the arithmetic on nibbles accepts |
| DnsPtr.PtrRound | nmap/nmap_dns.cc:1299-1440 | the name of every IPv4 and IPv6 address leads back to it |
| DnsPtr.AnyCaseRound | nmap/nmap_dns.cc:1348-1440 | so does every text that differs from the name only in the case of letters |
| DnsReverse.PartsExact | nmap/nmap_dns.cc:1356-1388 | a name in the IPv4 domain leads to the octets of its last four parts if these are numbers of at most three digits, each reduced modulo 256 and 0 where a part is missing, and is an error otherwise |
| DnsPtr.NoDomain | nmap/nmap_dns.cc:1356-1391 | a text that ends in neither domain, in whatever case, leads to no address |
| DnsWire.NameRound | nmap/nmap_dns.cc:1479-1570 | a name whose labels have 1 to 191 bytes is read back as it was written, wherever it stands in the buffer |
| DnsWire.NameExact | nmap/nmap_dns.cc:1479-1570 | a name is read back as it was written exactly if each of its labels has 1 to 191 bytes |
| DnsWire.PointerRound | nmap/nmap_dns.cc:1540-1556 | a name that ends in a pointer to an earlier name is read as its labels followed by that name |
| DnsWire.CompressedRound | nmap/nmap_dns.cc:1540-1556 | labels and a pointer to a name written earlier are read as the name with all these labels |
| DnsWire.PutDomainName | nmap/nmap_dns.cc:1479-1506 | writes the length-prefixed labels, or nothing if the name does not fit |
| DnsWire.ParseDomainName | nmap/nmap_dns.cc:1534-1570 | the loop, with its recursion at pointers, ends and computes the name |
| DnsRequest.BuildSimpleRequest | nmap/nmap_dns.cc:1442-1456 | the buffer holds the request, or 0 is returned |
| DnsRequest.SimpleRound | nmap/nmap_dns.cc:1586-1674 | a request for a name whose labels have 1 to 191 bytes is parsed as it was built |
| DnsRequest.ShortQuery | nmap/nmap_dns.cc:1586-1599 | a query is read only if six bytes are left, although five are enough for one about the root |
| DnsRequest.RequestRound | nmap/nmap_dns.cc:1458-1464 | a reverse request is one pointer query in the Internet class whose name leads back to the address |
| DnsRequest.RequestBytes | nmap/nmap_dns.cc:1442-1456 | byte by byte: identifier, flags 1 and 0, one question and no other record, each label after its length, an empty label, type 12 and class 1 |
| DnsRequest.NibbleLabelsAt | nmap/nmap_dns.cc:1323-1341 | the labels for an IPv6 address are the lower-case hexadecimal digits of its bytes, the last digit first |
| DnsRequest.ReverseRequest | nmap/nmap_dns.cc:1458-1464 | both of the bytes that the code leaves in the buffer; 512 bytes are always enough |
| IdleScan.Scan.ScanHalf | nmap/idle_scan.cc:1223-1250 | the first count of a half; a half of more than one port that seems to have open ones, and no other, is scanned at once with the count as the expected number |
| IdleScan.Scan.RetryHalf | nmap/idle_scan.cc:1274-1323 | the second count of a half that had no deep count: one more question, and a scan with its answer if that is positive and the half has more than one port |
| IdleScan.Scan.TreeScan | nmap/idle_scan.cc:1205-1332 | each position is marked at most once and the result is their number; exactly the positions are marked whose last answer, when asked about alone, was 1; each half was counted, and counted again exactly if it was not looked into and the first counts do not add up to the expected number; the same holds of the scans inside; with exact answers the open positions are marked |
| IdleScan.ScanAll | nmap/idle_scan.cc:1205-1332 | the same for a whole scan; of two ports, when no number is expected, those are marked whose second answer is 1 |
| IdleLog.HalvesJoined | nmap/idle_scan.cc:1252-1329 | which questions the two halves of a scan account for, and that their counts add up |
| IdleLog.TwoPorts | nmap/idle_scan.cc:1271-1329 | two ports are each asked about twice when no number is expected, and found by the second answer |
| FpRounds.Host.Callback | nmap/FPEngine.cc:2291-2367 | the first probe without an answer that the packet answers gets it; the last answer ends the detection, with the best set of all rounds left |
| FpRounds.Host.Schedule | nmap/FPEngine.cc:1939-2211 | wraps up exactly when as many probes are unsettled as were counted too often; otherwise sends the timed probes, waits for them, or looks at all probes: which are given up, which one is sent again, and whether a new round starts |
| FpRounds.Host.CheckTimed | nmap/FPEngine.cc:2083-2208 | starts a new round exactly when every timed probe was answered or may be sent again, and some may; gives up exactly those that have no try left |
| FpRounds.Host.NewRound | nmap/FPEngine.cc:2156-2206 | the assertion on the counter holds, and the best set of all rounds is kept aside, of equally good ones the first |
| FpRounds.Host.WrapUp | nmap/FPEngine.cc:2223-2270 | the answers kept in the end are the whole set of one round, and no round had more; it is the last round if that is one of the best, else the first best one; nothing stays aside; there were at most as many rounds as tries allowed, and one |
| FpRounds.Host.CheckRegular | nmap/FPEngine.cc:2025-2074 | gives up the other probes that have no try left, up to the first that has one, which is sent again |
| FpRounds.TallyTotal | nmap/FPEngine.cc:1953-1958 | answered, given-up and unsettled probes together are all probes, and once more those that were both given up and answered |
| FpRounds.SettledEnds | nmap/FPEngine.cc:1953-1958 | with every probe answered or given up, the counters add up exactly if none was both |
| FpRounds.LateAnswer | nmap/FPEngine.cc:2311-2349 | for any number of probes and tries, a run in which an answer comes after the last probe was given up, so that the detection never ends |
| FpRounds.TimeOutAll | nmap/FPEngine.cc:1939-2211 | from every state in which no probe was counted twice and the host has not stalled, timeouts alone settle every probe, and the host is done |
| FpRounds.StalledHost | nmap/FPEngine.cc:2112-2156 | a run in which a timed probe cannot be sent, so that timeouts never settle the others |
| FpRounds.Host.SendFailed | nmap/FPEngine.cc:423-429 | a probe that cannot be sent is given up and counted, even if it was given up before |
| FpRounds.Host.Visit | nmap/FPEngine.cc:1179-1211 | a host leaves exactly when it is done; its answers are then the best set exactly if it was wrapped up or no earlier round had more answers; a host that has stalled, or has settled probes counted twice, never leaves |
| FpRounds.LostAnswer | nmap/FPEngine.cc:1179-1211 | a run in which a host leaves without the answer that its first round got |

## Left out

- Match-time captures of LPeg: they call arbitrary Lua functions.
- Stack and memory limits of the LPeg machine, and the sizes of instructions in bytes.
- PegTree.Check: the source follows left calls without a bound; the model gives the cautious answer after 200 of them in a row, which takes a chain through nested grammars.
- PegLoopOpt.AsWrittenExact: about the results, one direction only; whether a clash ever shows in them depends on which texts the surrounding pattern lets through.  About the code, `ClashExact` has both.
- PegTermination.AcceptedAsWrittenEnds: one direction only; a pattern that the strict check rejects may still end on every input, because the check looks at what a pattern could do without reading; so may one with a rule that leads back to itself through a look-behind.
- PegVerify.VerifySound: about the repaired check; `VerifyAsWritten` covers the answers of nmap/lpeg.c:3084 that are right.
- PegPeephole.Peephole: does not model the slot arithmetic of the second visit at nmap/lpeg.c:1846, where a slot before a two-slot instruction would be taken for an instruction.
- PegLibrary.Compile: for the same reason describes the intended pass, not the text of nmap/lpeg.c:1846.
- PegLibrary.LpMatch: likewise.
- PegFixed.MatchPattern: likewise; a negative start position, which counts from the end, is not modelled.
- PegCaptures.CapsAgree: one direction only, for the same kind of reason: a capture that can come up need not do so on any subject; for a single capture `CaptureListed` has both.
- PegTheorem.MatchBalanced: about subjects on which the pattern has a result; the machine may halt on others, where a test ends a match that the semantics does not.
- PegCells.FinalFix: does not model the marking of called rules as used (`Used` in `PegVerify` says which they are), nor the tables of Lua values; the bytes of a set count as one cell.
- The Lua interface of LPeg, and capture values.
- Host names, IPv6 blocks and lists of resolved addresses in target expressions, and the splitting of the text at the slash.
- TargetText.ParseLong: numbers do not overflow; the source rejects everything above 255 in any case.
- Idle scan: probing, identifiers and timing.  The branches that forget a port are never taken, since their condition contradicts the assignment before them, and are not in the model.
- DnsCapacity.Times: a product is rounded once, to a double; platforms that keep more digits are not modelled.
- The DNS cache, configuration files, the wording of statistics, and the parsing of answer records.
- DnsWire.ParseDomainName: reading outside the buffer counts as an error.
- DnsEngine.MassDns.ReadEvent: flags and answer records are abstracted into a reply; which packet amounts to which reply is not modelled.
- DnsPtr.ReadPtr: a fourth digit in an octet counts as an error, octets after the fourth are ignored, and a name shorter than the domain does not end in it; the source reads outside its buffers there.
- DnsRequest.SimpleRound: names with empty labels or labels of more than 191 bytes are written but not read back; `NameExact` says so of the name.
- DnsWire.NameRound: likewise, with `NameExact` as the exact statement.
- DnsEngine.MassDns.Resolve: that every write under way ends while the loop waits is how nsock works, and is taken for granted.
- FpRounds.Host.Visit: one host; the groups of hosts and what a host that has left may still receive are not modelled.
- Round-trip times and congestion control of fingerprint probes, and the classification of fingerprints.
