# Verified model of the nginx shield module

This project models three parts of the shield module and proves what they promise.

* The Aho-Corasick decision core. `Trie`, `FailLinks` and `Automata` build the automaton for
  arbitrary signature and AND-rule tables with the same loops over the same arrays as the source:
  the trie, the breadth-first walk that resolves and flattens fail links, the accepting masks
  united along them, the row index, and then the scan. `Verdicts` says what a scan means in terms
  of the tables alone; the scan is proved to report exactly that verdict, and a buffer has only
  one. `Scanner` adds the two normalised copies, `Folding` what they mean in byte codes, `Oracle` the naive per-signature engine and its
  comparison with the automaton, `SkipMasks` the meaning of the skip mask, and `Request` the
  position masks, the two-pass target scan and the body collection.
* The ban engine. `BanTree`, `BanQueue` and `BanZone` hold heap nodes with search-tree links, queue
  links and an eviction cursor. Every heap method is proved to compute the function of the same
  name in `BanSpec`, so what `BanRuns`, `BanGuarantees`, `BanSweep`, `BanRefinement`, `BanProgress`
  and `BanStarvation` prove about runs of those functions holds of the linked structure. `BanOrder`
  is the one order of the tree.
* The log writer and the reporter. `LogRecord` writes the JSON record, and `LogReading` reads the
  whole of it back with a reader of its own.
  `Suppression` is the quota with its state file, `Sending` the cooldown and the settling of one
  line, `Following` one pass of the tail loop, and `FollowRuns` whole runs of it, with appends,
  rotations, truncations, crashes and restarts in any order; `FollowProgress` says that
  the loop gets on, `FollowDelivery` what is sent and when a line is done with, `FollowRotation` and
  `FollowCrashes` what a rotation and a crash lose or repeat.

## Where the code and its text differ

* `src/ngx_http_shield_ban.h:165-169` describes rotating the skipped nodes to the head. The code
  keeps a cursor instead and reorders nothing (`src/ngx_http_shield_ban.c:345-373`). The model
  follows the code.
* `src/ngx_http_shield_ban.c:241` says that progress no longer depends on queue order at all. It
  does once more than 32 records are live. `BanStarvation.ReclaimIsSureIffFewAreLive` gives the
  exact condition: while a record is stale, three calls free a record under any lookups in between
  iff at most 32 records are live or the cursor rests on a stale one. Otherwise lookups can starve
  any number of calls (`BanStarvation.LookupsStarve`), as on a run from the empty zone on which the
  hits of a new client are dropped as often as one likes (`BanStarvation.BannedClientsStarve`).
  When only stale records are looked up, `BanProgress.StaleRecordIsReclaimed` bounds the calls by
  2L/32 + 1 for any number L of live records.
* Evicting a record cannot always be kept from showing. When the ban time is shorter than the
  window, an evicted lapsed ban loses its window start. `BanRefinement.EvictionIsHiddenIffSafe`
  gives the exact condition on the policy: `window <= bantime`, or `window <= 1`, or `count <= 1`,
  or a window longer than half the range of the clock, which no legal run sees the end of.
* The table-row tiebreak of `src/ngx_http_shield_scan.c:378-382` is between categories that end at
  one byte. Over a whole buffer the earliest end wins first: the reported row is the lowest that
  occurs iff that row ends where the first signature does
  (`Verdicts.LowestRowWinsIffItEndsFirst`), and `Verdicts.HigherRowMayWin` has an input where it
  does not.
* `src/ngx_http_shield_module.c:923-926` says that all AND-rules match in the first pass over the
  target. A rule is judged on the whole target exactly when its category may see the query; if the
  category is kept from the query, the rule is masked there and judged on the path alone
  (`Request.TargetMatchesByMember`). No rule of the shipped tables reports such a category, so on
  those the sentence holds; `Request.NoQueryRulesDoNotStraddle` is a table where it does not.
* The compile-time count of rule terms (`src/ngx_http_shield_patterns.h:1538-1548`) leaves out one
  rule. What keeps every shift below 64 is the count in the build
  (`src/ngx_http_shield_scan.c:97-108`), which `Automata.Automaton.Build` models.
* The naive engine reports a rule that has no terms, or whose category has no table row; the
  automaton cannot. `Oracle.EnginesCompared` proves that they differ on nothing else.
* The per-address window of the reporter (`reporter/abuseipdb-reporter.py:19-20`) ends at midnight:
  the day roll forgets the addresses with the count. `Suppression.WindowIsKeptIffWithinDay` proves
  that the documented window is kept exactly when it does not reach back past the start of the UTC
  day.
* A restart is said never to report a line twice, and never to reset the quota
  (`reporter/abuseipdb-reporter.py:15-16` and `213-216`). After a crash lines are repeated unless the
  place had just been saved (`FollowRuns.RestartResumesInPlaceIffSaved`), but only lines settled in
  the two seconds after the last save (`FollowCrashes.CrashRepeatsTwoSeconds`). The quota survives
  exactly when the state file holds as many of the day's records as the memory or is at the cap:
  then no later call is answered otherwise than without the restart
  (`Suppression.RestartIsUnseenIffFileSuffices`), and all of them are answered as the full history
  would have it (`Suppression.HistorySurvivesRestartIffFileSuffices`). A failed save is the way to
  lose a record (`Suppression.UnsavedRecordIsForgotten`).
* The reporter waits for two empty reads before it leaves a rotated file
  (`reporter/abuseipdb-reporter.py:539-547`). The count of empty reads is cleared by a line only, not
  by a cut, and not by a read of the file while the path names it again. So the file can be left at
  the first empty read since it was rotated: exactly when a count was standing at the last moment
  the path named the file and no line has been read since
  (`FollowRotation.SecondLookIffCountWasClear`). `FollowRuns.CutLeavesTheCountStale` is a run where a
  cut does it, `FollowRotation.ReturningPathLeavesTheCount` one where a returning path does.
* A truncation is noticed exactly when the file is still shorter than the current offset at the next
  poll (`FollowRuns.CutIsNoticedIffStillShorter`).
* A rotated file is drained by polls only. A restart while the path names another file, or none,
  loses what is left of it (`FollowRotation.RestartLosesRestIffPathElsewhere`).
* The repository's own `README.md:320-321` says that quotes, backslashes and control bytes all become `\uXXXX`. The code
  writes quotes, backslashes, newlines, carriage returns and tabs as two-character escapes, and
  bytes from 0x80 on as `\uXXXX` as well.

## Model

| member | source | states |
|---|---|---|
| `Words.FallIsLongest` | src/ngx_http_shield_scan.c:248-291 | the fallback of a text is its longest suffix among the states: every other such suffix is a suffix of it |
| `Words.FallStep` | src/ngx_http_shield_scan.c:400 | the fallback after one more byte depends on the current fallback alone, which is what lets the scan keep a single state |
| `Words.FallOfExtension` | src/ngx_http_shield_scan.c:266-276 | the fail link of a child, and the flattened transition on an absent byte, are both the transition of the fail state |
| `Words.SuffixSplit` | src/ngx_http_shield_scan.c:278-287 | a pattern ends a state's text iff it is that text or ends its fail state's text: the reason for the union |
| `Automata.FindRow` | src/ngx_http_shield_scan.c:164-171 | the first row of a category, or the number of rows if it has none |
| `Tables.TermIdsDistinct` | src/ngx_http_shield_scan.c:209-220 | term ids, counted across all rules, determine their rule and their place in it |
| `Tables.InSigEntries` | src/ngx_http_shield_scan.c:178-205 | what the automaton of a flavour must accept: exactly the signatures of the rows of that flavour, with their category bit |
| `Tables.InTermEntries` | src/ngx_http_shield_scan.c:217-244 | the rule terms of a flavour, each under the one bit that its id gives it |
| `Trie.AddChild` | src/ngx_http_shield_scan.c:192-196 | an absent edge gets the next state number; no other cell changes meaning |
| `Trie.InsertWord` | src/ngx_http_shield_scan.c:187-199 | after a pattern's descent the states are the old ones and all prefixes of the pattern, at most one new state per byte |
| `Trie.AddSig` | src/ngx_http_shield_scan.c:183-206 | a signature adds its category bit at its final state and evicts no other bit |
| `Trie.AddTerm` | src/ngx_http_shield_scan.c:230-244 | a term marks the rule masks and never the category masks |
| `Trie.AddCategories` | src/ngx_http_shield_scan.c:174-207 | pass 1 recognises exactly the signatures of the flavour, within the computed bound on states |
| `Trie.AddRules` | src/ngx_http_shield_scan.c:209-246 | pass 1b adds exactly the terms of the flavour and gives each rule the mask of its own terms, empty for another flavour |
| `FailLinks.UnionAlongFail` | src/ngx_http_shield_scan.c:278-287 | own bits united with the fail state's bits are exactly the entries that end the state's text |
| `FailLinks.ShallowIsDone` | src/ngx_http_shield_scan.c:263-264 | when a state is dequeued every shallower state is finished, so its fail row is already flat |
| `FailLinks.LinkByte` | src/ngx_http_shield_scan.c:265-290 | one byte of one state: the cell becomes final, or the child gets its fail link, its masks and its place in the queue |
| `FailLinks.ResolveLinks` | src/ngx_http_shield_scan.c:248-291 | after the walk every cell goes to the longest suffix that is a state, every mask names exactly the patterns ending there, and every state but the root was visited exactly once |
| `Automata.CountStates` | src/ngx_http_shield_scan.c:75-95 | the bound is one state per pattern byte of the flavour, plus the root |
| `Automata.MapRows` | src/ngx_http_shield_scan.c:144-172 | the row index names a category's table row exactly when a table or a rule of the flavour reports it |
| `Automata.LowestBit` | src/ngx_http_shield_scan.c:34-50 | the least set bit of a mask that is not empty |
| `Automata.Automaton.Build` | src/ngx_http_shield_scan.c:65-301 | accepts exactly the tables with at most 64 terms and at most 65535 states, memory permitting; an accepted build is linked and complete, a refused one changes nothing |
| `Automata.Automaton.RunReachesLongestSuffix` | src/ngx_http_shield_scan.c:174-291 | for every byte string the goto table leads to its longest suffix that begins a pattern, and the masks there are exactly the patterns that end the string |
| `Automata.Automaton.BestRow` | src/ngx_http_shield_scan.c:412-420 | the lowest table row among the live categories of a state |
| `Automata.Automaton.Decide` | src/ngx_http_shield_scan.c:407-427 | after one more byte: the lowest enabled row ending here wins, if nothing ended before; otherwise still nothing has ended |
| `Automata.SeenIffOccurs` | src/ngx_http_shield_scan.c:402-405 | a term's bit has been seen iff that term occurs in the buffer |
| `Automata.NeedMeansAllOccur` | src/ngx_http_shield_scan.c:438-446 | a rule's mask is inside the seen mask iff all of its terms occur, and it is empty iff the rule has no part in this automaton |
| `Automata.Automaton.FireRule` | src/ngx_http_shield_scan.c:430-459 | reports the first declared enabled rule whose terms all occur, and nothing iff there is none |
| `Automata.Automaton.Scan` | src/ngx_http_shield_scan.c:384-460 | returns the verdict of the buffer for every buffer and skip mask; an automaton that was not built matches nothing |
| `Verdicts.VerdictIsUnique` | src/ngx_http_shield_scan.c:372-383 | a buffer has at most one verdict, so the scan's contract fixes its answer |
| `Verdicts.HitIffMatches` | src/ngx_http_shield_scan.c:384-460 | the verdict is a hit iff an enabled signature occurs or an enabled rule is complete |
| `Verdicts.LowestRowWinsIffItEndsFirst` | src/ngx_http_shield_scan.c:378-427 | the reported row is the lowest row that occurs in the buffer iff that row ends where the first signature ends |
| `Verdicts.HigherRowMayWin` | src/ngx_http_shield_scan.c:378-427 | a table and a buffer where a higher row is reported although a lower one occurs |
| `Scanner.DecodeInto` | src/ngx_http_shield_scan.c:338-348 | decodes, then turns plus signs into spaces, then lowers, without outgrowing the buffer |
| `Scanner.ScanInput` | src/ngx_http_shield_scan.c:320-369 | reports the raw copy's verdict, else the decoded copy's; hits iff an enabled signature or rule matches one of the copies |
| `Folding.RawCopyIsLowered` | src/ngx_http_shield_scan.c:336 | the raw copy has the small letter for each capital, by byte code, and every other byte as it came |
| `Folding.DecodedCopyIsLowered` | src/ngx_http_shield_scan.c:338-348 | the decoded copy is the unescaped text with its capitals lowered and a space for each plus sign |
| `Folding.CaseAndPlusAreInvisible` | src/ngx_http_shield_scan.c:320-369 | inputs that differ only in letter case, and in plus against space once decoded, are reported alike |
| `Folding.RawSignatureIsFound` | src/ngx_http_shield_scan.c:336-356 | a raw signature standing anywhere in the input in any letter case is a match |
| `Folding.DecodedSignatureIsFound` | src/ngx_http_shield_scan.c:338-369 | a decoded signature likewise in the unescaped text, with plus signs or spaces for its spaces |
| `Folding.RuleInside` | src/ngx_http_shield_scan.c:430-459 | a copy in which all terms of an enabled rule stand is a match |
| `Folding.HitNamesItsRow` | src/ngx_http_shield_scan.c:300-369 | a hit carries the name and category of a table row that is not skipped; a signature of that row meant for the copy, or a whole rule of its category, stands in the raw copy if that matches at all, else in the decoded one |
| `Oracle.Memmem` | ci/fuzz/fuzz_scan.c:122-140 | finds a non-empty needle iff it occurs |
| `Oracle.ShieldScan` | ci/fuzz/fuzz_scan.c:148-253 | the naive engine hits iff some enabled signature is found in a copy that its row applies to, or all terms of an enabled rule in one and the same copy |
| `Oracle.EnginesCompared` | ci/fuzz/fuzz_scan.c:413-426 | on every table, input and mask the engines differ exactly by the rules that the automaton can never report |
| `Oracle.EnginesAgree` | ci/fuzz/fuzz_scan.c:413-426 | when every rule has a term and a table row, the two engines hit on the same inputs |
| `Oracle.EnginesPartOnOrphanRules` | ci/fuzz/fuzz_scan.c:216-247 | a rule whose category has no row is reported by the naive engine alone |
| `SkipMasks.SkippingIsRemoving` | src/ngx_http_shield_scan.c:407-457 | scanning with a skip mask reports the same category as scanning, with nothing skipped, tables that never held the skipped rows and rules |
| `SkipMasks.RemovingKeepsTablesFit` | src/ngx_http_shield_scan.c:75-116 | the reduced tables are still well formed and still accepted by the build |
| `SkipMasks.SkippingMoreStaysClean` | src/ngx_http_shield_scan.c:407-450 | enlarging the mask never turns a clean buffer into a hit |
| `Request.PositionMask` | src/ngx_http_shield_patterns.h:1234-1269 | the set of categories that carry a position flag |
| `Request.MatchesByCategory` | src/ngx_http_shield_scan.c:407-457 | a mask acts category by category: a buffer matches iff some enabled category alone matches |
| `Request.ScanR` | src/ngx_http_shield_module.c:1155-1174 | a buffer that could not be scanned is a failure, never a clean result |
| `Request.PathLength` | src/ngx_http_shield_module.c:945-948 | the part before the first question mark, or the whole target |
| `Request.BothPasses` | src/ngx_http_shield_module.c:934-963 | the two passes miss nothing, and leaving out the second one loses nothing |
| `Request.InspectTarget` | src/ngx_http_shield_module.c:934-963 | hits iff an enabled category, with its rules, matches what it may see: the whole target, or only the path if it is kept from the query |
| `Request.QueryIsHiddenByItsFlag` | src/ngx_http_shield_module.c:912-948 | a category sees the bytes before the first question mark iff one of its rows is flagged, else the whole target |
| `Request.TargetMatchesByMember` | src/ngx_http_shield_module.c:917-963 | for all tables, masks and targets: a row or rule counts through the whole target iff its category may see the query, and through the path alone otherwise |
| `Request.RuleDecidesTarget` | src/ngx_http_shield_module.c:917-963 | where nothing else matches, the target is reported iff the rule is complete in the part that its category may see |
| `Request.NoQueryRulesDoNotStraddle` | src/ngx_http_shield_module.c:917-930 | one instance: a table and a target whose rule has its terms on both sides of the question mark, and does not fire |
| `Request.ReadFully` | src/ngx_http_shield_module.c:1326-1342 | a loop over short reads delivers the wanted bytes, or fails exactly when a read does |
| `Request.CollectBody` | src/ngx_http_shield_module.c:1275-1348 | yields exactly the first bytes of the chain up to the cap and the known length, however they are split; fails iff memory or a needed read does |
| `Request.TakesAllThatIsAllowed` | src/ngx_http_shield_module.c:1275-1300 | what is taken is the longest beginning of the body that neither the cap nor a known content length cuts |
| `Request.ChainIsConcatenation` | src/ngx_http_shield_module.c:1305-1348 | the body is the bytes of its buffers one after the other |
| `Request.ChainOfOne` | src/ngx_http_shield_module.c:1305-1348 | memory and file buffers give their bytes, special buffers none |
| `Request.InspectBody` | src/ngx_http_shield_module.c:1351-1372 | the verdict depends on those bytes alone, and a body that could not be read is always a failure, never clean; a hit is of an enabled category that no row keeps from the body |
| `BanOrder.OneTotalOrder` | src/ngx_http_shield_ban.c:81-95 | the insert helper and the lookup follow one strict total order: hash, length, unsigned bytes |
| `BanTree.SearchableIffAscending` | src/ngx_http_shield_ban.c:73-109 | the search order depends on the in-order sequence alone, so any restructuring that keeps it is harmless |
| `BanTree.InsertKeepsOrder` | src/ngx_http_shield_ban.c:80-104 | inserting an absent address at the end of its path keeps the search order |
| `BanTree.InsertBelow` | src/ngx_http_shield_ban.c:73-109 | the helper's descent hangs the node there, under any hash collisions, and changes no other link |
| `BanTree.FindNode` | src/ngx_http_shield_ban.c:120-152 | finds a node of the address iff the tree holds one |
| `BanTree.OneNodePerKey` | src/ngx_http_shield_ban.c:397-402 | no two nodes of the tree hold one address |
| `BanTree.InsertNode` | src/ngx_http_shield_ban.c:424 | insertion of an absent address, then any restructuring: a search tree over one node more |
| `BanTree.DeleteNode` | src/ngx_http_shield_ban.c:356 | deletion, then any restructuring: a search tree over one node less |
| `BanQueue.Unlink` | src/ngx_http_shield_ban.c:144 | removal leaves the other nodes linked both ways, in their order |
| `BanQueue.PushHead` | src/ngx_http_shield_ban.c:145 | insertion at the head keeps the ring |
| `BanZone.Zone.KeysAreDistinct` | src/ngx_http_shield_ban.c:397-402 | no address is queued twice |
| `BanZone.Zone.SameAddresses` | src/ngx_http_shield_ban.c:112-153 | an address has a tree node iff it is queued |
| `BanZone.Zone.Lookup` | src/ngx_http_shield_ban.c:112-153 | finds the node iff there is one and moves it to the head; tree, queue and blocks stay one set |
| `BanZone.Zone.Judge` | src/ngx_http_shield_ban.c:309-359 | frees the node exactly when its record is stale, counts it then, and stands on its predecessor, which was not freed |
| `BanZone.Zone.WalkFrom` | src/ngx_http_shield_ban.c:278-360 | one call judges at most 32 nodes, wraps at most once, frees none that it did not judge, and computes the walk of the specification |
| `BanZone.Zone.Expire` | src/ngx_http_shield_ban.c:195-374 | computes the walk of the specification, frees only its own blocks, and leaves the cursor on the sentinel or on a queued node |
| `BanZone.Zone.IsBanned` | src/ngx_http_shield_ban.c:377-385 | the answer and the new state of the specification |
| `BanZone.Zone.Record` | src/ngx_http_shield_ban.c:388-488 | the answer and the new state of the specification, with or without memory |
| `BanZone.Zone.constructor` | src/ngx_http_shield_ban.c:156-172 | a fresh zone is empty, with the cursor on the sentinel |
| `BanTree.Node.Hit` | src/ngx_http_shield_ban.c:460-485 | retires a lapsed ban, rolls the window, counts the hit and arms at the threshold |
| `BanSpec.AddClamp` | src/ngx_http_shield_ban.c:60-70 | a sum of times never goes back and saturates at the largest time |
| `BanRuns.WalkFreesStaleOnly` | src/ngx_http_shield_ban.c:278-360 | eviction frees stale records only and alters none |
| `BanRuns.WalkWithinBudget` | src/ngx_http_shield_ban.c:278-280 | one call frees at most four records; the 32 visits are in `WalkFrom` |
| `BanRuns.WalkKeepsOrder` | src/ngx_http_shield_ban.c:278-360 | the survivors keep their queue order |
| `BanRuns.ApplyOnKey` | src/ngx_http_shield_ban.c:377-488 | a call on one address leaves every other record as it was, or frees it if it is stale |
| `BanRuns.RunIsSound` | src/ngx_http_shield_ban.h:94-99 | on every run addresses stay distinct and the cursor names a queued record or the sentinel |
| `BanGuarantees.LiveRecordIsUntouched` | src/ngx_http_shield_ban.c:340-350 | calls on other addresses never free or alter a live record |
| `BanGuarantees.HitsAreCounted` | src/ngx_http_shield_ban.c:444-471 | inside one window every hit of an address is counted, whatever is evicted, and whether a first hit, a roll or an arming whose ban has lapsed opened the window |
| `BanGuarantees.EnoughHitsBan` | src/ngx_http_shield_ban.c:444-485 | the count-th hit inside any such window bans until its time plus the ban time, saturated |
| `BanGuarantees.BanHolds` | src/ngx_http_shield_ban.c:340-350 | a ban lasts at least to its deadline through any later calls |
| `BanGuarantees.OffenderIsRefused` | src/ngx_http_shield_ban.c:377-488 | so the address is refused at every time before the deadline |
| `BanGuarantees.HitsAreBackedByCalls` | src/ngx_http_shield_ban.c:460-485 | on every run the hit counter equals the recorded hits it stands for, and stays below the threshold between calls |
| `BanGuarantees.ArmingNeedsCountHits` | src/ngx_http_shield_ban.c:460-485 | every arming is backed by exactly count recorded hits in one window with no arming among them, with the clock moving either way |
| `BanGuarantees.RefusalNeedsRecentArming` | src/ngx_http_shield_ban.c:377-385 | on every run a refused address was last armed less than one ban time before |
| `BanSweep.ReclaimableIsFreed` | src/ngx_http_shield_ban.c:309-360 | a record whose ban has lapsed, whose window is over or in the future, or whose loss no hit could notice, is freed if it is among the 32 a call starts on, unless four others are |
| `BanSweep.SmallZoneIsSwept` | src/ngx_http_shield_ban.c:263-373 | with at most 32 records one call leaves none of these, or frees four |
| `BanSweep.IdleAddressIsForgotten` | src/ngx_http_shield_ban.c:326-360 | on every run: an unarmed address last hit a window ago, or one whose window starts after the clock, is gone after the next new address where at most four are stored |
| `BanRefinement.SafePoliciesHideEviction` | src/ngx_http_shield_ban.c:340-360 | under a safe policy every legal run gives the answers and the ban total of an engine that never evicts |
| `BanRefinement.UnsafePoliciesShowEviction` | src/ngx_http_shield_ban.c:340-360 | under any other policy, for any two addresses, one explicit legal run bans a client that the eviction-free engine would not |
| `BanRefinement.EvictionIsHiddenIffSafe` | src/ngx_http_shield_ban.c:340-360 | for every policy and every hash: eviction is unobservable on all legal runs over addresses of 4 or 16 bytes iff the policy is safe |
| `BanProgress.FruitlessCallAdvances` | src/ngx_http_shield_ban.c:263-373 | a call that frees nothing brings the cursor 32 live records nearer to a stale one |
| `BanProgress.StaleTouchIsHarmless` | src/ngx_http_shield_ban.c:143-147 | looking up a stale record takes the cursor no further from another |
| `BanProgress.StaleRecordIsReclaimed` | src/ngx_http_shield_ban.c:263-373 | with L live records some record is freed within 2L/32 + 1 calls, wherever the cursor starts, if only stale ones are looked up in between |
| `BanProgress.RoundsFreeStaleOnly` | src/ngx_http_shield_ban.c:340-359 | whatever is looked up in between, what these calls free was stale |
| `BanStarvation.LookupsStarve` | src/ngx_http_shield_ban.c:232-247 | with more than 32 live records and the cursor not on a stale one, there are lookups that keep any number of calls from freeing anything |
| `BanStarvation.ReclaimIsSureIffFewAreLive` | src/ngx_http_shield_ban.c:224-247 | while a record is stale: any lookups in between, three calls free a record iff at most 32 are live or the cursor rests on a stale one |
| `BanStarvation.BannedClientsStarve` | src/ngx_http_shield_ban.c:224-239 | on a run from the empty zone, for any 34 addresses and one more: a lapsed ban is never reclaimed and every hit of the new client is dropped |
| `LogRecord.EscapeReadsBack` | src/ngx_http_shield_module.c:520-543 | one escaped byte reads back, by section 7 of RFC 8259, as its code point |
| `LogRecord.RequestReadsBack` | src/ngx_http_shield_module.c:513-546 | a JSON reader gets back exactly the first 600 bytes of the request line and stops at the record's own closing quote |
| `LogRecord.RecordIsPrintable` | src/ngx_http_shield_module.c:456-464 | no raw control or high byte reaches the sink |
| `LogRecord.RecordsTellRequestsApart` | src/ngx_http_shield_module.c:485-487 | records of two requests are equal iff the first 600 bytes of the requests are |
| `LogReading.DecimalReadsBack` | src/ngx_http_shield_module.c:513-518 | the decimal text denotes its number |
| `LogReading.RecordReadsBack` | src/ngx_http_shield_module.c:465-549 | a JSON object reader gets back ts, ip, cat, src, mode, status and req, in order, each with its own value, and nothing after them |
| `LogRecord.OpeningFits` | src/ngx_http_shield_module.c:489-493 | the fixed text and the status leave 72 of the 160 spare bytes |
| `LogRecord.EscapeInto` | src/ngx_http_shield_module.c:520-543 | with that room the loop's guard on the end of the buffer never stops it before the last byte |
| `LogRecord.Write` | src/ngx_http_shield_module.c:465-560 | the buffer holds the whole record and the newline after it, within the computed capacity |
| `Suppression.Suppressor.Allow` | reporter/abuseipdb-reporter.py:267-274 | the answer and the rolled state; the state file is not written |
| `Suppression.Suppressor.Record` | reporter/abuseipdb-reporter.py:276-281 | the rolled, updated and pruned state, written to the file if that works |
| `Suppression.DaysHaveTheirSeconds` | reporter/abuseipdb-reporter.py:255-260 | a day is its 86400 seconds of UTC |
| `Suppression.AllowedIffQuotasPermit` | reporter/abuseipdb-reporter.py:267-274 | the full history allows an address iff the day has seen fewer reports than the cap and none of it less than a window ago |
| `Suppression.AnswersLikeFullHistory` | reporter/abuseipdb-reporter.py:230-281 | pruned, rolled, persisted and reloaded at any point, the suppressor answers like one that keeps every report |
| `Suppression.UnsavedRecordIsForgotten` | reporter/abuseipdb-reporter.py:242-253 | the instance of one unsaved record: a failed save goes unnoticed; after a restart the address is allowed again, which the full history permits only without a window and with room under the cap |
| `Suppression.RestartIsUnseenIffFileSuffices` | reporter/abuseipdb-reporter.py:213-281 | on every timely run, whatever was saved: no calls after a restart, further restarts included, are answered otherwise than without it iff the file holds as many of the day's records as the memory, or is at the cap |
| `Suppression.HistorySurvivesRestartIffFileSuffices` | reporter/abuseipdb-reporter.py:213-281 | where no other restart loses a record, the same condition decides whether every later answer is that of the full history |
| `Suppression.QuotasHold` | reporter/abuseipdb-reporter.py:438-451 | no day sees more reports than the cap, nor two of one address closer than the window, through any restarts |
| `Suppression.WindowIsKeptIffWithinDay` | reporter/abuseipdb-reporter.py:255-274 | for every address, the documented window is kept for all histories iff it does not reach back past the start of the UTC day |
| `Suppression.PartsAcrossMidnight` | reporter/abuseipdb-reporter.py:255-260 | otherwise any address, reported just before midnight, is allowed again just after |
| `Sending.DelayLaw` | reporter/abuseipdb-reporter.py:317-330 | a cooldown lies between zero and an hour; a server hint in that range is taken as it is, one outside is cut to it; without a hint it doubles from five seconds to five minutes, and the cap on the exponent never shows |
| `Sending.Reporter.Report` | reporter/abuseipdb-reporter.py:337-394 | the outcome and the cooldown that each kind of reply leads to |
| `Sending.ProcessLine` | reporter/abuseipdb-reporter.py:419-462 | a line stays unsettled only when its report was tried and must be retried; a report is recorded only once accepted |
| `Following.Follower.Pass` | reporter/abuseipdb-reporter.py:474-592 | one pass of the loop computes the transition that the run theorems are about |
| `Following.Follower.constructor` | reporter/abuseipdb-reporter.py:397-472 | a process starts from the saved place and the saved suppression state |
| `FollowRuns.LinesInOrder` | reporter/abuseipdb-reporter.py:497-527 | lines of one opening are handed on in order, each again until it is settled, and never during a cooldown |
| `FollowRuns.PlacesAreBehindSettledLines` | reporter/abuseipdb-reporter.py:512-527 | on every run, crashes included, everything behind the current and the saved place in an append-only file is settled |
| `FollowProgress.PollReadsTheNextLine` | reporter/abuseipdb-reporter.py:497-527 | a poll past the cooldown hands on the next unread line of the open file, whatever the path names |
| `FollowProgress.PollsDrain` | reporter/abuseipdb-reporter.py:497-527 | with final replies, polls hand on the unread lines, one each and in order, wherever the path points |
| `FollowProgress.RotatedFileIsDrainedAndLeft` | reporter/abuseipdb-reporter.py:474-591 | n polls drain a rotated file of n unread lines, two more give it up (fewer with a standing count), and the next opens the file that the path names at its top |
| `FollowDelivery.DoneMeansDelivered` | reporter/abuseipdb-reporter.py:337-394 | on every run a line is done with iff no report was to be sent for it, or it was accepted or refused; too many requests, server errors and no answer leave it undone |
| `FollowDelivery.TransientRepliesAreRetried` | reporter/abuseipdb-reporter.py:452-462 | after such a reply the next call of that opening is the same line, after any other the next line |
| `FollowDelivery.PlacesAreBehindDeliveredLines` | reporter/abuseipdb-reporter.py:419-533 | at-least-once delivery: every line behind the current or the saved place of an append-only file needed no report or had a final reply |
| `FollowDelivery.HistoryIsWhatWasAccepted` | reporter/abuseipdb-reporter.py:446-450 | the suppressor's history is exactly the accepted reports |
| `FollowDelivery.LineIsSentIffQuotasPermit` | reporter/abuseipdb-reporter.py:433-446 | on runs whose clock does not go back and whose restarts follow a save: a line is sent iff it names an address and the accepted reports leave room under the cap and the window |
| `FollowDelivery.RepliesSetTheSilence` | reporter/abuseipdb-reporter.py:309-331 | on every run a transient reply silences the process for the hint cut to an hour, or for 5, 10, 20, 40, 80, 160, then 300 seconds by their number since the last accepted report |
| `FollowRuns.PlaceIsRecent` | reporter/abuseipdb-reporter.py:514-533 | after a poll that settled a line, or found none, the saved place is the current one or less than two seconds old |
| `FollowRuns.RestartResumesInPlaceIffSaved` | reporter/abuseipdb-reporter.py:397-406 | the next process takes up behind settled lines, and exactly where this one stood iff the stop was graceful, the place had just been saved, or there was nothing to save |
| `FollowRuns.EmptyReadsAreCounted` | reporter/abuseipdb-reporter.py:511-590 | a count of one means an earlier empty read with the path elsewhere, and no line read since |
| `FollowRuns.RotatedFilesAreDrained` | reporter/abuseipdb-reporter.py:534-591 | an append-only file is given up by a poll only when all its lines are settled, at a second empty read with no line read in between; both reads are of this file unless a cut left the count stale |
| `FollowRuns.SecondLookIffCountIsFresh` | reporter/abuseipdb-reporter.py:547-590 | within one opening: the file is given up at its first empty read of that opening iff the count is left over from before a cut; otherwise there was an earlier one, and no line since |
| `FollowRotation.SecondLookIffCountWasClear` | reporter/abuseipdb-reporter.py:511-590 | on every run, when a file is given up: there was an earlier empty read of it since the path last named it, and one with no line after it, iff no empty read was counted at that moment or a line has been read since |
| `FollowRotation.ReturningPathLeavesTheCount` | reporter/abuseipdb-reporter.py:534-592 | a run without any cut on which the path goes, comes back and goes again, and the file is left at its first empty read of the second absence |
| `FollowRotation.RestartLosesRestIffPathElsewhere` | reporter/abuseipdb-reporter.py:463-492 | after a restart nothing more of the open file is read, whatever happens short of the path naming it anew, iff the path did not name it at the restart: any lines from its place on are then lost |
| `FollowCrashes.UnsavedIsAlwaysRecent` | reporter/abuseipdb-reporter.py:512-533 | on every run with a steady clock, each line between the saved and the current place of an append-only file was settled in this opening, within two seconds of the last save |
| `FollowCrashes.SavesAreTwoSecondsApart` | reporter/abuseipdb-reporter.py:514-533 | while a file stays open its place is saved at most every two seconds |
| `FollowCrashes.CrashRepeatsTwoSeconds` | reporter/abuseipdb-reporter.py:397-533 | so that is all a crash can repeat of a file that the path still names |
| `FollowCrashes.CrashRepeatsLastTwoSeconds` | reporter/abuseipdb-reporter.py:512-533 | right after a poll that settled a line or found none, every repeated line was settled less than two seconds before |
| `FollowRuns.AcceptedReportsKeepQuotas` | reporter/abuseipdb-reporter.py:419-592 | on every run whose clock does not go back and whose restarts come after a successful save, through rotations and retries, the accepted reports keep both quotas |
| `FollowRuns.CutIsNoticedIffStillShorter` | reporter/abuseipdb-reporter.py:534-553 | a truncation is noticed iff the file is still shorter than the current offset at the next poll; otherwise as many new lines as lie before it are skipped |
| `FollowRuns.CutLeavesTheCountStale` | reporter/abuseipdb-reporter.py:547-560 | a run of eleven events on which a noticed truncation does not clear the count, and the next file, never cut, is left at its first empty read after rotation |

## Left out

- nginx's red-black rotations, slab allocator, pools and `ngx_unescape_uri` are not part of this
  repository. An arbitrary restructuring that keeps the in-order sequence stands for the rotations,
  an arbitrary yes or no for every allocation, and an arbitrary function whose output is no longer
  than its input for the decoding.
- A 64-bit mask is the set of its bit positions and a flat table is a two-dimensional array. Parent
  pointers and colours of the tree are not modelled; only rebalancing uses them.
- The width of the CRC32 hash is not modelled: any number may be a hash. The ban total and the hits
  of a node are unbounded counters; the per-category and block counters of the zone are left out.
- The concrete signatures and rules: everything is proved for arbitrary tables.
- The compile-time term count is not modelled, only the run-time one that the build relies on.
- The header walk, the structural checks (httpoxy, ranges, control characters, dotfiles), the
  Content-Type test and X-Forwarded-For parsing: single loops that would add easy members.
- BanRefinement.EvictionIsHiddenIffSafe: speaks of legal runs, on which the clock does not go
  back, deadlines do not saturate, and no hit is recorded for a client while it is banned.
- BanStarvation.ReclaimIsSureIffFewAreLive: says when every pattern of lookups lets a record go, not
  for each single pattern whether it does.
- Automata.Automaton.Build: takes one answer for all the allocations of the build together.
- LogReading.RecordReadsBack: its reader takes no white space between tokens, which the record has
  none of, and the trusted fields are assumed to need no escape.
- LogRecord.Write: the timestamp, address and category texts are parameters; that they are
  printable is assumed only where the record is claimed to be. Syslog, the error branches of the
  write and the pause after a full disk are left out.
- Following.Follower.Pass: reads whole lines and counts places in lines, since nginx appends whole
  lines; sizes and byte offsets inside a line are not modelled. The world does not change during
  one pass.
- FollowRuns.PlacesAreBehindSettledLines: speaks of files that were never truncated. A new file
  that reuses the number of an old one counts as a truncation.
- Suppression.AnswersLikeFullHistory: assumes a clock that does not go back and that the last
  record was saved before a restart. Times are real numbers; the rounding of floats is not modelled.
- Sending.ProcessLine: a line is reduced to the address that it asks to report, if any. JSON
  parsing, the address classes, comments, HTTP and the dry-run switch are left out.
- Locking: every ban function runs under the caller's mutex, so each call is one step.
- Configuration, the status and probe endpoints, fault injection, signals and sleeping.
