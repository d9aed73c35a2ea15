# Verified model of the dynamic NFT reward platform

This project models the parts of the platform whose correctness spans several
functions, database rows or calls, and proves what they keep over every input and
every run:

- **Workflow templates.** `{{ key }}` placeholders are found, checked and replaced by
  JSON-encoded values. The rendered text, read back as JSON strings (section 7 of RFC 8259),
  means the template with each placeholder standing for its value. The command-line
  renderer's two passes are one simultaneous substitution when the second finds the template's
  inline placeholders and no others, and when that is so is stated exactly. Text is a sequence
  of UTF-16 code units.
- **XP and loot keys.** Buying keys, opening lootboxes, webhook rewards, XP reads and mint
  records act on one authoritative ledger, three key mirrors, an audit log and the event table.
- **Lootbox sampling.** The roll-to-entry loop, the rejection loop, and loot tables from
  saving to normalisation.
- **Action queue, event handling and sponsorship credits.** Retries with backoff, enqueueing
  that survives crashes, and what mints, rewards, joins and brand lootboxes are charged. Credits
  are counted in ten-thousandths, the scale of their column.
- **Workflow runs and trait activation.** The background poller, the retry transition, the
  foreground polling loop, and the two loops that activate traits.
- **x402 amounts.** Decimal arithmetic done on strings.

Code that updates rows or variables step by step is a class or a method with loops, proved
equal to a function of the old state. The run theorems (`EconomyRuns`, `SponsorshipRuns`,
`TraitLimit`, and the last sections of `ActionQueue`, `EventEnqueue`, `RunTracking` and
`TraitActivation`) are about those functions, for arbitrary sequences of operations with
arbitrary clocks, draws, external answers and failures. A transaction is one atomic step.

`dafny verify dfyconfig.toml` checks everything.

## Where the code does less than it seems to

- A string placeholder inside a literal must stand directly between two quotes. In
  `"a {{ k }}"` the value brings its own quotes and ends the literal
  (`Templates.InsideALiteralQuotesAreNeeded`, an if-and-only-if; over whole templates
  `Templates.CommutesExactlyIfFitting`).
- In the two-pass renderer a quoted value that holds a placeholder has it expanded, and a number
  or boolean can complete a placeholder around it. Exactly then the second pass finds more than the
  template's inline placeholders (`TwoPassRenderer.SecondPassFindsTheInlineExactly`; for inputs see
  `TwoPassRenderer.QuotedValueIsExpandedTwice` and
  `TwoPassRenderer.OpeningBeforeANumberMakesAPlaceholder`). The outputs may still coincide, as when
  the value of a variable is a placeholder for itself.
- A webhook writes an absolute XP total and may lower it. An account has spent no more than its
  total throughout a run exactly when every applied webhook total covers what was spent before
  it (`EconomyRuns.SolventExactlyWhenCovered`; a run that fails is `EconomyRuns.WebhookCanOverspend`).
  That the totals webhooks report never decrease is not enough: the first may be below what was
  bought with the default of 10000 (`EconomyRuns.RisingReportsDoNotSuffice`).
- The ledger is credited only by an event's first delivery. If that fails after the event row is
  created, no redelivery makes up for it (`EconomyRuns.CreditedExactlyByFirstDelivery`).
- The join route (apps/api/src/routes/brands.ts:714-786) charges a mint without looking at
  memberships, and creates the membership only afterwards. It charges a member again, and a caller
  whose membership is refused, for instance because the route writes the Privy id where the schema
  (apps/api/prisma/schema.prisma:178-192) refers to a user's id. Every other mint is charged for a
  new membership (`SponsorshipRuns.MintChargedAtMostOnce`, an if-and-only-if;
  `SponsorshipRuns.JoiningTwiceIsChargedTwice`).
- The event processor, the join route and the brand's lootbox route only ask for some credits to be
  left and may overdraw a brand, by less than one credit (`SponsorshipRuns.OverdrawnExactly`,
  `SponsorshipRuns.ProcessingOverdraws`).
- A retry keeps the old hashes and the creation time of a run. The run reports its old hash or none
  (`RunTracking.OneHashOnly`, `RunTracking.RetryBreaksAgreement`). Retried 20 minutes after its
  creation it fails again, and after a day it is never polled and stays queued
  (`RunTracking.LateRetryFate`).
- Actions are deduplicated exactly when they carry a non-empty event id
  (`EventEnqueue.EnqueueingIsIdempotentExactlyWithAnId`). No event has an empty one: the only callers
  pass an event's id, and `buildZealyEventId`
  (apps/api/src/services/zealyAutomationWorker.ts:641-647) never makes an empty id.
- The background poller handles the newest run first, so of two activations that succeed in the same
  tick the older one wins (`RunTracking.OldestChoiceWins`).
- A tick of the action queue takes the five oldest eligible items whether or not they are due,
  so five failed items waiting out their backoff hold up all younger ones
  (`ActionQueue.StallsExactly`, `ActionQueue.HeldUp`, `ActionQueue.SixthItemIsHeldUp`).
- The limit of five active traits holds for a request. A wallet keeps it exactly if its active keys and
  those of each request put into effect are at most five together (`TraitLimit.WithinLimitExactly`);
  by accepted requests for one trait each it may get any number of active traits
  (`TraitLimit.ActiveTraitsAreUnbounded`).
- The webhook route and the worker write the same event rows. The route closes a row whatever is in it,
  so it may overwrite what the worker wrote (`EventEnqueue.RouteOverwritesTheWorker`). A processed event
  stays processed all the same (`EventEnqueue.DoneEventsStay`).
- An open may find nothing although the table has traits left, exactly if all of its draws are of
  unlocked ones (`EconomyRuns.OpenRefusedExactly`, `LootboxSampling.LowDrawsMissTheRest`).

## Model

| member | source | states |
|---|---|---|
| JsonText.EscapeIsStandard | apps/api/src/services/workflowTemplateService.ts:65 | Which code units are written as themselves, which with two units and which with six; no hexadecimal digit is in upper case |
| JsonText.EscapeRoundTrip | apps/api/src/services/workflowTemplateService.ts:64-66 | A JSON-escaped value followed by any text reads back as exactly the value, with the reader left at that text: no value can close its literal early |
| JsonText.QuotedLexes | apps/api/src/services/workflowTemplateService.ts:64-66 | A stringified value followed by any text lexes as one string token holding the value, then that text's tokens |
| JsonText.QuotedReads | apps/api/src/services/workflowTemplateService.ts:65 | A stringified text is read back as itself, with the reader left at what follows |
| Placeholders.MatchesExactlyThePattern | apps/api/src/services/workflowTemplateService.ts:41 | The scanner reports a key and length exactly when the text starts with a spelling of the regular expression with that key and length |
| Placeholders.KeyCharacters | apps/api/src/services/workflowTemplateService.ts:41 | Which characters a key has, and which of the usual ones count as spaces |
| Placeholders.MatchHasNoQuotes | apps/api/src/services/workflowTemplateService.ts:41 | No match contains a quote |
| Placeholders.ExecIsLeftmost | apps/api/src/services/workflowTemplateService.ts:44 | The search finds the leftmost match, or none exists anywhere |
| Placeholders.ExecFindsNextHole | apps/api/src/services/workflowTemplateService.ts:44-46 | Searching on after each match lists exactly the leftmost non-overlapping matches |
| Placeholders.CollectPlaceholders | apps/api/src/services/workflowTemplateService.ts:40-48 | The loop returns the keys of all matches, without repetition, in order of first occurrence |
| Placeholders.DistinctHasNoRepeats | apps/api/src/services/workflowTemplateService.ts:42-47 | Collected keys are pairwise different |
| Templates.RenderTemplate | apps/api/src/services/workflowTemplateService.ts:81-87 | Rendering is refused exactly when some placeholder has no variable, naming those; otherwise it is the single-pass replacement |
| Templates.PiecesCoverTheTemplate | apps/api/src/services/workflowTemplateService.ts:50-61 | The replacement's scan partitions the template into copied units and placeholders, and its placeholders are those that were collected, in order |
| Templates.SurroundedExactly | apps/api/src/services/workflowTemplateService.ts:60-62 | For arbitrary text, a placeholder counts as surrounded if and only if the units right before and right after its spelling in the template are quotes |
| Templates.QuotedPlaceholdersRender | apps/api/src/services/workflowTemplateService.ts:50-73 | For every template made of text without opening braces and placeholders between quotes, and all string variables, the rendered text is the template with the JSON of the value in place of each of them |
| Templates.UnboundIsLeftAlone | apps/api/src/services/workflowTemplateService.ts:56-58 | The replacement leaves placeholders without a variable as they are |
| Templates.ReplacementFindsTheCollectedHoles | apps/api/src/services/workflowTemplateService.ts:81-87 | When nothing is missing every match is replaced, each piece of output depends on its own piece of the template only, and substituted text is never expanded |
| Templates.RenderFailsExactlyOnOtherTypes | apps/api/src/services/workflowTemplateService.ts:59-71 | With all keys present, rendering throws exactly when some placeholder's value is no string, number or boolean |
| Templates.RenderingCommutesWithLexing | apps/api/src/services/workflowTemplateService.ts:50-73 | For every template with well-formed literals and every fitting set of variables, lexing the rendered text gives the template's tokens with every placeholder decoded to exactly its value, everything else unchanged |
| Templates.CommutesExactlyIfFitting | apps/api/src/services/workflowTemplateService.ts:50-73 | For every template with well-formed literals whose misplaced placeholders have no empty values, lexing the rendered text gives the template's tokens with their values if and only if no placeholder is misplaced |
| Templates.EmptyMisfitsMayCancel | apps/api/src/services/workflowTemplateService.ts:60-66 | With empty values it may do so by chance: a template in which two misplaced placeholders cancel out |
| Templates.InsideALiteralQuotesAreNeeded | apps/api/src/services/workflowTemplateService.ts:60-66 | Inside a literal a string value is read back if and only if its placeholder stands between quotes |
| Templates.OutsideLiteralsQuotesAreWrong | apps/api/src/services/workflowTemplateService.ts:60-66 | Outside literals a string value becomes its own literal if and only if its placeholder does not stand between quotes |
| TwoPassRenderer.RenderTemplate | packages/workflows/scripts/renderWorkflow.ts:63-88 | Missing keys are reported exactly; otherwise the result is the second pass over the first, or the error for a null value |
| JsonValues.StringifyRoundTrip | packages/workflows/scripts/renderWorkflow.ts:79 | The JSON of every value (null, booleans, numbers, strings, arrays, objects with their members in order), whatever follows it, reads back as the value, with the reader left at what follows |
| JsonValues.StringifyIsInjective | packages/workflows/scripts/renderWorkflow.ts:79 | Different values print differently |
| TwoPassRenderer.SafeStringReads | packages/workflows/scripts/renderWorkflow.ts:43-61 | Inside a literal a safe string says the text of a string, and for any other value a text from which the value reads back |
| TwoPassRenderer.OnePassOfPieces | packages/workflows/scripts/renderWorkflow.ts:73-87 | On every template made of text without opening braces, quoted and inline placeholders, simultaneous substitution puts typed JSON and safe strings in their places and leaves all else as it is |
| TwoPassRenderer.TwoPassesOfPieces | packages/workflows/scripts/renderWorkflow.ts:63-88 | So do the two passes, if the second finds only the inline placeholders |
| TwoPassRenderer.StringifyIsInert | packages/workflows/scripts/renderWorkflow.ts:79 | The JSON of a value whose strings nowhere hold two opening braces offers no place where a placeholder could begin, nested arrays and objects included |
| TwoPassRenderer.StringifyIsSealed | packages/workflows/scripts/renderWorkflow.ts:79 | A placeholder that begins in the JSON of a value ends in it, whatever the value and whatever follows |
| TwoPassRenderer.NewMatchExactly | packages/workflows/scripts/renderWorkflow.ts:73-83 | At a unit the first pass copies, its output holds a placeholder exactly when an opening of the template runs through quoted numbers or booleans to its closing braces |
| TwoPassRenderer.PlaceholdersAfterFirstPass | packages/workflows/scripts/renderWorkflow.ts:73-87 | The output of the first pass keeps every inline placeholder of the template and has, besides, exactly those in the JSON of quoted values and those that quoted values complete |
| TwoPassRenderer.SecondPassFindsTheInlineExactly | packages/workflows/scripts/renderWorkflow.ts:73-87 | The second pass finds exactly the inline placeholders if and only if no quoted value holds a placeholder and no opening is completed by one |
| TwoPassRenderer.TwoPassesAreOne | packages/workflows/scripts/renderWorkflow.ts:63-88 | Whenever the second pass finds only the inline placeholders, the two passes equal simultaneous substitution, failing on the same inputs |
| TwoPassRenderer.PlainVariablesAreClean | packages/workflows/scripts/renderWorkflow.ts:63-88 | With strings, arrays and objects in which no text holds two opening braces, two passes are one on every template |
| TwoPassRenderer.QuotedValueIsExpandedTwice | packages/workflows/scripts/renderWorkflow.ts:73-87 | An input on which they differ: a quoted value spelling a placeholder is replaced by that placeholder's value |
| TwoPassRenderer.OpeningBeforeANumberMakesAPlaceholder | packages/workflows/scripts/renderWorkflow.ts:73-87 | An input on which they differ: `{{` before, and `}}` after, a quoted placeholder for a number make its digits a placeholder |
| LootboxSampling.ValidateLootTable | apps/api/src/routes/brands.ts:949-996 | The table passes validation exactly when it is not empty while enabled and every entry has both names and a whole weight of at least 1; what then goes on to be saved are the trimmed entries |
| LootboxSampling.TrimmedEntryIsSavedAsGiven | apps/api/src/routes/brands.ts:954-958 | A trimmed entry with a whole weight is saved as it is, under its name or, without one, its key |
| LootboxSampling.TrimTakesSpaces | apps/api/src/routes/brands.ts:955-956 | Trimming takes spaces off both ends and nothing else |
| LootboxSampling.NormalizeLootTableEntries | apps/api/src/services/lootboxSamplingService.ts:7-24 | The loop keeps exactly the valid entries, trimmed, in order |
| LootboxSampling.NormalizedIsPositive | apps/api/src/services/lootboxSamplingService.ts:19-20 | Every normalised weight is at least 1, whatever was stored |
| LootboxSampling.SavedTableSurvivesNormalisation | apps/api/src/routes/brands.ts:954-996 | Entries accepted on save pass through storage and normalisation unchanged |
| LootboxSampling.PickOne | apps/api/src/services/lootboxSamplingService.ts:48-57 | Taking weights off the roll finds the first entry whose cumulative weight exceeds it, the last entry if there is none, and nothing when the total is not positive |
| LootboxSampling.PickedByInterval | apps/api/src/services/lootboxSamplingService.ts:51-56 | With positive weights and a roll below the total, an entry is picked exactly when the roll falls in its weight interval; the fallback is never reached |
| LootboxSampling.WeightManyRollsPickEachPosition | apps/api/src/services/lootboxSamplingService.ts:48-57 | Exactly `weight` of the integer rolls below the total pick each position |
| LootboxSampling.RollIsBelowTotal | apps/api/src/services/lootboxSamplingService.ts:51 | A draw from the unit interval rolls an integer from 0 to the total weight minus 1 |
| LootboxSampling.DrawnByShare | apps/api/src/services/lootboxSamplingService.ts:51-56 | A draw from the unit interval picks a position if and only if it falls in its share of the interval, as large as its weight and behind those before it |
| LootboxSampling.SampleWeightedLootEntries | apps/api/src/services/lootboxSamplingService.ts:26-75 | The rejection loop returns precisely the first `count` draws whose key is neither excluded nor drawn before, among the attempts allowed |
| LootboxSampling.SampledEntries | apps/api/src/services/lootboxSamplingService.ts:59-74 | Sampled entries come from the table, have distinct keys, none excluded, and are at most `count` |
| LootboxSampling.SampleIsMaximal | apps/api/src/services/lootboxSamplingService.ts:59-74 | When fewer entries are found than asked for, every attempt drew an excluded key or one that was found |
| LootboxSampling.SampleIsEmptyExactly | apps/api/src/services/lootboxSamplingService.ts:59-74 | With positive weights sampling finds nothing if and only if every attempt up to the bound draws an excluded key |
| LootboxSampling.LowDrawsMissTheRest | apps/api/src/services/lootboxSamplingService.ts:48-74 | Draws that find nothing although an entry is left: the lowest ones always pick the first entry |
| Economy.ComputeWebhookCredits | apps/api/src/services/rewardRulePolicy.ts:35-58 | An enabled rule credits exactly its keys, or none if they are negative, and the XP its mode names: the reported, the override's or none; a disabled rule credits nothing |
| Economy.ResolveZealyXpFromPayload | apps/api/src/routes/zealy.ts:66-93 | The XP total is that of the first payload field that is a finite number, rounded down, or 0 if it is negative |
| Economy.Database.GetOrCreateEconomyLedger | apps/api/src/routes/me.ts:54-74 | Reading the ledger creates the row or fills in the default XP, and changes nothing else |
| Economy.Database.BuyLootKeys | apps/api/src/routes/me.ts:944-1018 | A purchase succeeds exactly when the available XP covers it and then writes ledger and mirrors; otherwise every table is as before, including a row created and rolled back |
| Economy.Database.OpenLootbox | apps/api/src/routes/me.ts:574-679 | An open takes its keys and unlocks what sampling picks, or, short of keys or with nothing to unlock, writes nothing |
| Economy.Database.ApplyWebhookReward | apps/api/src/routes/zealy.ts:154-249 | The reward transaction sets the absolute XP total, adds the keys, brings all mirrors up to date, audits the difference and closes the event |
| Economy.Database.HandleWebhook | apps/api/src/routes/zealy.ts:286-360 | A delivery is applied only if it creates its event row, is a completion and its payload resolves |
| Economy.Database.PersistMintedToken | apps/api/src/services/nftService.ts:75-79 | Recording a mint sets the token and leaves keys and XP alone; a new row starts with the schema's zeros |
| EconomyRuns.AlwaysSound | apps/api/src/routes/me.ts:618-654 | In every reachable state no balance is negative, each key mirror that is there equals the economy balance, and one is missing only if the balance is 0 |
| EconomyRuns.FallbackChainIsConsistent | apps/api/src/routes/me.ts:1089-1093 | In every reachable state, whichever of the four tables are looked at, the endpoint reports the economy balance |
| EconomyRuns.KeysAreConserved | apps/api/src/routes/me.ts:982-989 | Over every run the key balance is keys bought plus keys of audited webhooks minus keys spent on opens, and never negative |
| EconomyRuns.AuditTelescopes | apps/api/src/routes/zealy.ts:163-238 | Over every run the audited XP differences plus 10000 per default filled in sum up to the recorded total |
| EconomyRuns.OneAuditPerEvent | apps/api/src/routes/zealy.ts:286-305 | However often events are delivered, each has at most one audit row, and one exactly when the webhook route processed it |
| EconomyRuns.RedeliveryIsIgnored | apps/api/src/routes/zealy.ts:297-303 | After an event was delivered once, delivering it again changes no table, whatever it carries and whatever happened in between |
| EconomyRuns.CreditedExactlyByFirstDelivery | apps/api/src/routes/zealy.ts:286-360 | Over every run an event has an audit row if and only if its first delivery was a completion and went through |
| EconomyRuns.StatusTellsTheFirstDelivery | apps/api/src/routes/zealy.ts:286-360 | Over every run an event's row says for ever whether its first delivery was no completion, went through, or failed |
| EconomyRuns.AuditsTellDeliveries | apps/api/src/routes/zealy.ts:228-238 | Every audit row has the account, quest and event of a delivery, and the keys its rule credits |
| EconomyRuns.XpLedgerShowsLastReport | apps/api/src/routes/zealy.ts:183-192 | The XP ledger holds what the last applied webhook reported, and no row for an account without one |
| EconomyRuns.OldestLedgerShowsLast | apps/api/src/routes/me.ts:1003-1012 | The oldest ledger holds the XP that the last purchase left or the last webhook reported, and the token of the last mint |
| EconomyRuns.PurchaseSucceedsExactly | apps/api/src/routes/me.ts:969-974 | A purchase succeeds if and only if what was spent and its price are within the total, or within 10000 while there is none |
| EconomyRuns.PurchaseCostsItsPrice | apps/api/src/routes/me.ts:975-991 | A successful purchase lowers the available XP by exactly quantity times price, leaves no more spent than the total, and copies what is available to the oldest ledger |
| EconomyRuns.PurchaseTouchesNoOther | apps/api/src/routes/me.ts:955-1018 | A purchase leaves every row of every other account, all unlocked traits, events and audits as they are |
| EconomyRuns.ReadingShowsAvailableXp | apps/api/src/routes/me.ts:1082-1088 | In every reachable state the balance endpoint shows the XP that a purchase would reckon with, and so does the row an XP read leaves behind |
| EconomyRuns.StepSolvency | apps/api/src/routes/zealy.ts:168-173 | From a solvent state an operation leads to a solvent one exactly when it is no applied webhook below what was spent |
| EconomyRuns.SolventExactlyWhenCovered | apps/api/src/routes/zealy.ts:168-173 | No state of a run has spent more than the total if and only if every applied webhook total covers what was spent before it |
| EconomyRuns.WebhookCanOverspend | apps/api/src/routes/zealy.ts:168-173 | A run that fails: a purchase, then a webhook reporting no XP |
| EconomyRuns.MonotoneTotalsPreventOverspending | apps/api/src/routes/me.ts:975-989 | If no applied webhook lowers the total it finds, the default included, no state of the run has spent more than the total |
| EconomyRuns.RisingReportsDoNotSuffice | apps/api/src/routes/zealy.ts:168-173 | A run in which the reported totals never decrease and more is spent than the total |
| EconomyRuns.OpenUnlocksNewTraits | apps/api/src/routes/me.ts:598-679 | A successful open unlocks at least one pair, none unlocked before, all from the table, for exactly its cost; a refused one changes nothing |
| EconomyRuns.OpenRefusedExactly | apps/api/src/routes/me.ts:589-616 | An open from a valid table is refused if and only if the keys do not suffice or every draw is of an unlocked trait |
| EconomyRuns.OpensAreBounded | apps/api/src/routes/me.ts:598-679 | Over every run an account's successful opens are at most the number of distinct keys in its tables |
| ActionQueue.Worker.FindEligible | apps/api/src/services/zealyAutomationWorker.ts:582-589 | The query returns exactly the oldest eligible items, up to five |
| ActionQueue.Worker.ProcessActionQueue | apps/api/src/services/zealyAutomationWorker.ts:578-627 | A tick executes each selected item that is new or due exactly once, counts the attempt, records the outcome, and leaves all other items alone |
| ActionQueue.TakesUpToFive | apps/api/src/services/zealyAutomationWorker.ts:582-589 | A tick takes five eligible items, or all if there are fewer |
| ActionQueue.OldestFirst | apps/api/src/services/zealyAutomationWorker.ts:587-588 | No eligible item is passed over for a younger one |
| ActionQueue.StallsExactly | apps/api/src/services/zealyAutomationWorker.ts:582-596 | A tick changes nothing if and only if none of the five oldest eligible items is new or due |
| ActionQueue.RetriedExactlyWhenDue | apps/api/src/services/zealyAutomationWorker.ts:47-52 | A failed item among the five oldest eligible ones is executed if and only if 10 s, doubled with each failure but the first, have passed since it failed |
| ActionQueue.NewItemsRunAtOnce | apps/api/src/services/zealyAutomationWorker.ts:591-620 | A new item among them is executed, and its row says how that ended and when |
| ActionQueue.HeldUp | apps/api/src/services/zealyAutomationWorker.ts:582-596 | Over any series of ticks, while the five oldest eligible items wait, no younger item is touched, be it new or due |
| ActionQueue.SixthItemIsHeldUp | apps/api/src/services/zealyAutomationWorker.ts:582-620 | Such a queue is reachable: of six new items five fail in the first tick, and for ten seconds no tick looks at the sixth |
| ActionQueue.RowsTellTheirHistory | apps/api/src/services/zealyAutomationWorker.ts:591-620 | After every run an item's attempts equal its executions, at most five; it is never RUNNING between ticks; it is SUCCEEDED exactly when its last execution succeeded and none followed a success; and each retry waited at least its backoff |
| ActionQueue.FinishedItemsStay | apps/api/src/services/zealyAutomationWorker.ts:582-586 | A succeeded item, and one that has used its attempts, never changes again |
| ActionQueue.BackoffIsUncapped | apps/api/src/services/zealyAutomationWorker.ts:47-52 | Below the attempt limit the backoff is 10 s doubled with each failure and the five-minute cap is never reached |
| ActionQueue.ExhaustedItemsWaited | apps/api/src/services/zealyAutomationWorker.ts:47-52 | An item that used all five attempts spent at least 150 s between the end of the first and the start of the last |
| ActionQueue.TickMakesProgress | apps/api/src/services/zealyAutomationWorker.ts:578-627 | No tick raises the sum of remaining attempts, and one after the longest backoff lowers it while anything is eligible |
| ActionQueue.QueueDrains | apps/api/src/services/zealyAutomationWorker.ts:578-627 | With as many such ticks as there are attempts left, nothing stays eligible, whatever the outcomes |
| ActionQueue.DrainedItemsAreDone | apps/api/src/services/zealyAutomationWorker.ts:582-586 | Where nothing is eligible every item has succeeded or was executed exactly five times and failed |
| EventEnqueue.Worker.EnsureActionQueued | apps/api/src/services/zealyAutomationWorker.ts:61-94 | An action is added unless one for the same brand, type and non-empty event is there |
| EventEnqueue.Worker.HandleZealyEvent | apps/api/src/services/zealyAutomationWorker.ts:96-211 | A handling, cut short at any write by a crash or an exception, with the route's closing write before or after its first write, leaves the actions and the event row reached until then |
| EventEnqueue.Worker.CloseEvent | apps/api/src/routes/zealy.ts:240-247 | The webhook route closes an event row as processed or ignored, whatever is in it, and changes nothing else |
| EventEnqueue.EnqueueingIsIdempotentExactlyWithAnId | apps/api/src/services/zealyAutomationWorker.ts:69-82 | Enqueueing an action twice is enqueueing it once, if and only if it carries an event id |
| EventEnqueue.AtMostOneActionPerEvent | apps/api/src/services/zealyAutomationWorker.ts:96-235 | After any handlings, each cut short anywhere, and closing writes, an event has at most one mint and one quest action |
| EventEnqueue.CompletedHandlingEnqueuesOnce | apps/api/src/services/zealyAutomationWorker.ts:180-203 | The first complete handling leaves exactly one quest action, exactly one mint action if no token was owned, and an event that is not handled again, whenever the route closes it |
| EventEnqueue.FreshHandlingQueues | apps/api/src/services/zealyAutomationWorker.ts:168-203 | If nothing is queued for an event, a complete handling queues the mint, unless a token is owned, and then the quest result, for the wallet it read |
| EventEnqueue.ActionsAreForWalletsRead | apps/api/src/services/zealyAutomationWorker.ts:120-203 | Over every run each queued action is for a wallet that a handling of its event read |
| EventEnqueue.HandlingEnds | apps/api/src/services/zealyAutomationWorker.ts:100-210 | Which readings leave an event enqueued, ignored or failed, as if-and-only-ifs |
| EventEnqueue.CutShortHandlingEnds | apps/api/src/services/zealyAutomationWorker.ts:204-211 | A handling cut short by a crash leaves the event waiting unless the route closes it; one cut short by an exception leaves it failed |
| EventEnqueue.DoneEventsStay | apps/api/src/services/zealyAutomationWorker.ts:217-221 | A processed event stays processed and is never found waiting again; its row is as the route's last closing write, if any, leaves it |
| EventEnqueue.WaitingExactly | apps/api/src/services/zealyAutomationWorker.ts:217-221 | In every reachable state the worker finds an event waiting exactly until it is processed |
| EventEnqueue.RouteOverwritesTheWorker | apps/api/src/routes/zealy.ts:240-247 | A run in which the worker enqueues an event's actions and the route then overwrites the event's status |
| Sponsorship.Services.ResolveToken | apps/api/src/services/zealyEventProcessor.ts:117-144 | A token is at hand exactly for members and for wallets minted with credits left, and only the latter are charged |
| Sponsorship.Services.SubmitReward | apps/api/src/services/zealyEventProcessor.ts:146-200 | A reward is submitted, recorded and charged exactly when the event has no run yet, credits are left and the external calls succeed |
| Sponsorship.Services.ProcessZealyEvent | apps/api/src/services/zealyEventProcessor.ts:34-235 | The whole call, for every combination of failing external steps, leaves credits, members, quest and event rows as specified; it succeeds exactly if the event is completed afterwards |
| Sponsorship.Services.RunMintAction | apps/api/src/services/zealyAutomationWorker.ts:254-354 | The mint action succeeds exactly when the wallet is a member afterwards and charges only a confirmed new mint |
| Sponsorship.Services.RunQuestRewardAction | apps/api/src/services/zealyAutomationWorker.ts:356-444 | The quest action charges exactly when it succeeds |
| Sponsorship.Services.ExecuteQuestReward | apps/api/src/services/rewardExecutionService.ts:94-238 | Direct execution charges the mint once it is resolved and the reward once it is submitted, even if confirmation then fails |
| Sponsorship.Services.JoinBrand | apps/api/src/routes/brands.ts:714-786 | The join route charges whenever credits are left and the mint is submitted; it succeeds, with a membership, only for a caller that has none and whose user id fits |
| Sponsorship.Services.OpenLootboxOfBrand | apps/api/src/routes/brands.ts:1681-1735 | The brand lootbox route charges a member naming its token whenever credits are left and the workflow is submitted |
| SponsorshipRuns.StepCharges | apps/api/src/services/zealyEventProcessor.ts:117-200 | Every call lowers its brand's credits by exactly 1 per charged mint and 0.5 per charged reward or lootbox, and no other brand's |
| SponsorshipRuns.CreditsAreConserved | apps/api/src/services/rewardExecutionService.ts:142-231 | Over every run of the services, the join and the lootbox routes a brand's credits are what was paid in minus what was charged |
| SponsorshipRuns.MintIsForAMembership | apps/api/src/routes/brands.ts:738-769 | A call charges a mint for a new membership, or as a join of a member or of a refused caller, and for nothing else |
| SponsorshipRuns.MintChargesCounted | apps/api/src/routes/brands.ts:738-769 | Over every run a wallet is charged one mint if its membership was bought, and one for each stray join |
| SponsorshipRuns.MintChargedAtMostOnce | apps/api/src/services/zealyEventProcessor.ts:117-136 | A wallet's mint is charged at most once per brand if and only if none of its joins is stray, or a single stray one is its only charge |
| SponsorshipRuns.OnlyJoinsChargeTwice | apps/api/src/services/zealyEventProcessor.ts:117-136 | A wallet that never uses the join route is charged its mint at most once per brand, whichever services run |
| SponsorshipRuns.JoiningTwiceIsChargedTwice | apps/api/src/routes/brands.ts:738-769 | A run that fails: a wallet joins twice and is charged twice |
| SponsorshipRuns.RewardChargedOncePerEvent | apps/api/src/services/zealyEventProcessor.ts:177-200 | An event's reward is charged exactly once when its row names an accepted submission, and never otherwise |
| SponsorshipRuns.RewardedQuestsAreNeverChargedAgain | apps/api/src/services/zealyEventProcessor.ts:89-95 | Once a quest is rewarded it stays so, and processing any of its events again submits and charges nothing |
| SponsorshipRuns.OutcomeTellsTheReward | apps/api/src/services/zealyEventProcessor.ts:89-231 | A call for an event that is not completed leaves it completed if its brand is configured and its quest is rewarded afterwards, and failed otherwise |
| SponsorshipRuns.CompletedEventsAreRewarded | apps/api/src/services/zealyEventProcessor.ts:206-222 | In every reachable state a completed event's quest is rewarded |
| SponsorshipRuns.CompletedIsAbsorbing | apps/api/src/services/zealyEventProcessor.ts:37-39 | A completed event's row never changes again |
| SponsorshipRuns.RetrySucceedsExactly | apps/api/src/services/zealyEventProcessor.ts:34-235 | When every external step succeeds, an event, failed before or not, ends completed and rewarded if and only if its brand is there and the credits suffice for what is still to be charged |
| SponsorshipRuns.RewardNeedsARun | apps/api/src/services/zealyEventProcessor.ts:177-213 | A quest gets rewarded only by a confirmed call for one of its events, whose row then names a workflow run and whose wallet is then a member |
| SponsorshipRuns.RunIsTheAccepted | apps/api/src/services/zealyEventProcessor.ts:187-191 | The workflow run an event names is the one accepted for it, and stays |
| SponsorshipRuns.OverdrawnExactly | apps/api/src/services/zealyEventProcessor.ts:122-148 | A charging call overdraws a brand if and only if the processor mints with less than a credit left or submits with less than half a credit left, or a join or lootbox costs more than is left |
| SponsorshipRuns.NeverAWholeCreditBelow | apps/api/src/services/zealyEventProcessor.ts:122-148 | No run takes a brand a whole credit below zero, but for what payments of a negative amount took away |
| SponsorshipRuns.NeverBelowMinusHalf | apps/api/src/services/zealyEventProcessor.ts:122-148 | When credits are paid in halves no run takes a brand below minus half a credit |
| SponsorshipRuns.ProcessingOverdraws | apps/api/src/services/zealyEventProcessor.ts:122-148 | A run that overdraws: half a credit is bought and one event processed for a new wallet |
| SponsorshipRuns.WorkersNeverOverdraw | apps/api/src/services/zealyAutomationWorker.ts:290-298 | Runs of the worker's actions, direct executions and payments of non-negative amounts alone keep credits at zero or above |
| RunTracking.Poller.PollRow | apps/api/src/services/krnlRunPoller.ts:211-349 | The update built for one run, or left out when nothing changed, is the specified next row |
| RunTracking.Poller.WriteTraits | apps/api/src/services/krnlRunPoller.ts:351-409 | A run that has just succeeded unlocks the reported traits or activates its selection; no other run writes trait rows |
| RunTracking.Poller.PollOnce | apps/api/src/services/krnlRunPoller.ts:192-439 | A tick polls exactly the queued and running runs of the last day and applies their trait writes, newest run first |
| RunTracking.OldestChoiceWins | apps/api/src/services/krnlRunPoller.ts:206-409 | Of several runs that activate a key of the same wallet in one tick the oldest decides for the tick, as the newest is polled first |
| RunTracking.TickUnlocksExactly | apps/api/src/services/krnlRunPoller.ts:351-368 | After a tick a trait is unlocked if and only if it was before, or a lootbox run of its owner became a succeeded one whose payload lists it |
| RunTracking.UnlockingKeepsStates | apps/api/src/services/krnlRunPoller.ts:351-368 | Where no run of the tick chooses the key, existing rows keep their state and new ones are inactive |
| RunTracking.UnlockedExactly | apps/api/src/services/krnlRunPoller.ts:351-368 | Over every run of the poller a trait is unlocked if and only if some lootbox run succeeded that reported it |
| RunTracking.RunsSayHowTheyEnded | apps/api/src/services/krnlRunPoller.ts:310-343 | In every reachable state exactly the failed runs carry an error, and every finished one its completion time |
| RunTracking.RowSaysTheAnswer | apps/api/src/services/krnlRunPoller.ts:300-349 | A timely answer puts its status, message, steps and payload into the row |
| RunTracking.HashesComeFromTheAnswer | apps/api/src/services/krnlRunPoller.ts:257-330 | The execution hash is the one known, else the reported one, else the one in the payload; a chain hash is set exactly if it was missing and the execution hash has a receipt |
| RunTracking.SucceededStays | apps/api/src/services/krnlRunPoller.ts:197-206 | No background tick and no retry changes a succeeded run |
| RunTracking.FailedStaysUnlessRetried | apps/api/src/services/krnlRunPoller.ts:197-206 | A failed run changes only by a retry |
| RunTracking.EffectsFireExactlyOnce | apps/api/src/services/krnlRunPoller.ts:351-409 | A run's unlock or activation takes effect exactly once if the run succeeded and never otherwise |
| RunTracking.HashesAgreeWithoutRetry | apps/api/src/services/krnlRunPoller.ts:257-330 | In every reachable state of a run never retried the transaction hash is the execution hash, and so is the chain hash once set |
| RunTracking.HashesAreWriteOnce | apps/api/src/services/krnlRunPoller.ts:257-330 | Execution and chain hash, once set, never change, retries included |
| RunTracking.TxHashIsWriteOnceWithoutRetry | apps/api/src/services/krnlRunPoller.ts:320-330 | Without retries the transaction hash, once set, never changes |
| RunTracking.RetryKeepsAgreementExactly | apps/api/src/routes/brands.ts:2281-2301 | A retry keeps the hashes in agreement if and only if the failed run had no execution hash |
| RunTracking.OneHashOnly | apps/api/src/routes/brands.ts:2281-2301 | In every reachable state, retries included, transaction and chain hash are missing or the execution hash; so the hashes agree unless a transaction hash is missing beside an execution hash |
| RunTracking.RetriedRunKeepsItsOldHash | apps/api/src/routes/brands.ts:2281-2301 | A run that had an execution hash never reports another transaction hash afterwards, however it is polled and retried |
| RunTracking.ConfirmedRunLosesItsHash | apps/api/src/routes/brands.ts:2281-2301 | A retried run whose chain hash was known never reports a transaction hash again |
| RunTracking.AgreesAgainExactly | apps/api/src/services/krnlRunPoller.ts:257-330 | The hashes of a run retried with an execution hash and no chain hash agree again if and only if a later poll sets its chain hash |
| RunTracking.RetryBreaksAgreement | apps/api/src/routes/brands.ts:2281-2301 | A run whose hashes disagree: it fails with one hash, is retried, succeeds with another, and reports none |
| RunTracking.SucceededExactlyInTime | apps/api/src/services/krnlRunPoller.ts:196-287 | Over every run a workflow run is succeeded if and only if a tick that fetched it got that answer within 20 minutes of its creation |
| RunTracking.LateRetryFate | apps/api/src/services/krnlRunPoller.ts:196-287 | A retried run polled only later than 20 minutes after its creation fails by the timeout if and only if a tick within a day of its creation gets an answer, whatever that says; otherwise it stays queued |
| RunTracking.RetryAfterADayIsNeverPolled | apps/api/src/services/krnlRunPoller.ts:196-206 | More than a day after its creation no tick changes a run |
| RunTracking.ForegroundPoller.PollUntilTxHash | apps/api/src/services/krnlService.ts:598-708 | The first decisive round settles the result and the row, and without one the loop times out with what the rounds reported; only a timeout can misreport, and it does exactly if the row was terminal at the start and no round reported queued or running |
| RunTracking.FirstDecisiveRoundDecides | apps/api/src/services/krnlService.ts:614-708 | With a reference the call succeeds if and only if there is a decisive round (one that throws, fails or confirms a hash) and the first confirms, with its hash in all three columns; it fails or throws if and only if the first one does, and times out if and only if there is none |
| TraitActivation.TraitTable.ActivateInDemoMode | apps/api/src/routes/me.ts:822-847 | The request handler's loop computes the last-write-wins state |
| TraitActivation.TraitTable.ActivateForRun | apps/api/src/services/krnlRunPoller.ts:375-409 | The poller's loop computes the same state, skipping incomplete selections |
| TraitActivation.TraitTable.Unlock | apps/api/src/services/krnlRunPoller.ts:352-368 | Unlocking adds inactive rows and leaves existing ones as they are |
| TraitActivation.CollectSelections | apps/api/src/routes/me.ts:782-792 | The loop reads each selection, with the name for a missing key and both parts trimmed, and keeps each complete one at its first occurrence |
| TraitActivation.CollectCandidates | apps/api/src/services/krnlRunPoller.ts:167-177 | The poller's loop keeps each complete trait of a payload at its first occurrence, untrimmed |
| TraitActivation.KeptExactly | apps/api/src/routes/me.ts:782-792 | Kept are exactly the complete selections that are the first of their combined key |
| TraitActivation.SpacesAroundPartsDoNotMatter | apps/api/src/routes/me.ts:785-786 | A selection that was read has trimmed parts, and reads back as itself |
| TraitActivation.CheckRequest | apps/api/src/routes/me.ts:794-814 | A request is accepted exactly with one to five selections that are all unlocked |
| TraitActivation.AcceptedExactly | apps/api/src/routes/me.ts:794-814 | A request is accepted if and only if it lists one to five traits and all are unlocked; accepted are these, each once |
| TraitActivation.CountingChecksAll | apps/api/src/routes/me.ts:801-814 | Comparing the number of rows found with the number asked for checks that every selection is unlocked |
| TraitActivation.ActivationIsLastWriteWins | apps/api/src/routes/me.ts:823-846 | After an activation a selected key's only active value is its last selected one, if unlocked, with the time of that selection; other keys and owners are untouched |
| TraitActivation.ActivationRepairsSelectedKeys | apps/api/src/routes/me.ts:825-845 | Whatever was active before, a selected key has at most one active value afterwards |
| TraitActivation.LoopsAgree | apps/api/src/services/krnlRunPoller.ts:381-404 | Both loops, with whatever clocks, switch on the same traits for the same selections |
| TraitActivation.OneActiveAlways | apps/api/src/services/krnlRunPoller.ts:381-404 | Any sequence of unlocks and activations keeps at most one active value per key |
| TraitLimit.ActiveAfterActivation | apps/api/src/routes/me.ts:822-847 | An activation of unlocked traits leaves as many traits active as there are keys active before or selected |
| TraitLimit.RequestKeepsLimitExactly | apps/api/src/routes/me.ts:797-847 | An accepted request leaves at most five traits active if and only if the active and the selected keys are at most five together |
| TraitLimit.AlwaysOrderly | apps/api/src/routes/me.ts:797-847 | Over every run of unlocks, requests and finished workflow runs each key has at most one active value, and what was accepted stays unlocked |
| TraitLimit.WithinLimitExactly | apps/api/src/routes/me.ts:797-799 | Over every such run a wallet never has more than five active traits if and only if its active keys and those of each request put into effect are at most five together |
| TraitLimit.ActiveTraitsAreUnbounded | apps/api/src/routes/me.ts:797-799 | For every number there is a run of accepted requests for one trait each that gets so many active |
| AtomicAmount.HumanAmountIsExact | apps/web/src/lib/x402.ts:61-67 | For every decimal string and number of decimals the result is the canonical digits of floor(value * 10^decimals) |
| AtomicAmount.AtomicAmountOfHumanRequirement | apps/web/src/lib/x402.ts:51-74 | A digit-string maximum wins over the human amount; an empty amount throws |
| AtomicAmount.AtomicAmountExactly | apps/web/src/lib/x402.ts:51-74 | For every requirement: a digit-string maximum wins, an atomic amount is taken as it is, and it throws exactly for a missing amount, missing decimals of a human amount, or another unit |
| AtomicAmount.WholeAmountsAgree | apps/web/src/lib/x402.ts:61-71 | A whole number without decimals stands for itself in both units |

## Left out

- Templates.RenderingCommutesWithLexing: reads the rendered text as string literals and the units between them; the rest of the JSON grammar that `JSON.parse` checks is not modelled.
- Templates.RenderTemplate: a name that JavaScript objects inherit (such as `constructor`) counts as a variable of another type; the model has it as an entry of the variable map. Choosing and reading template files is left out.
- TwoPassRenderer.RenderTemplate: names that JavaScript objects inherit pass its check for missing keys (packages/workflows/scripts/renderWorkflow.ts:65) and print as no JSON; the model's variables have no inherited names.
- TwoPassRenderer.TwoPassesAreOne: variables are values that `JSON.parse` can produce; command-line arguments and files are left out.
- LootboxSampling.SampleWeightedLootEntries: weights are whole numbers, as normalisation ensures, and draws are reals, so floating-point rounding of the roll is not modelled.
- LootboxSampling.ValidateLootTable: the handler then refuses an enabled table unless the brand has an active asset pack with a layer for every entry (apps/api/src/routes/brands.ts:1008-1040); the checks on prices and counts are left out as well.
- Economy.Database.BuyLootKeys: the 32-bit limit of the integer columns, beyond which the transaction fails, is not modelled; quantities are whole numbers because the handler refuses others.
- EconomyRuns.OneAuditPerEvent: the event table holds what the webhook route writes; what the worker writes to the same rows is in `EventEnqueue`, and changes neither ledgers nor audits.
- Economy.Database.HandleWebhook: looking up the wallet, the community and the reward rule, and the secret check, are inputs; the check of the asset pack before an open is left out in the same way.
- ActionQueue.Worker.ProcessActionQueue: a process dying in the middle of a tick leaves its item RUNNING, which no later tick selects; ticks of the model run to their end.
- Sponsorship.Services.ProcessZealyEvent: the intermediate status `processing`, and failures of the database between writes, are not modelled; calls run one after another.
- RunTracking.Poller.PollRow: payloads are opaque texts, and what is found in them (hash, steps, error text, traits) is part of the node's answer.
- RunTracking.SucceededStays: the foreground loop, which may rewrite a succeeded run, is no operation of the poller's runs.
- RunTracking.ForegroundPoller.PollUntilTxHash: runs alone on its row; interleaving it with the background poller is not modelled, and neither is its variant that polls by intent id and fails the row on timeout.
- The KRNL node, chain receipts, Zealy, S3 and Privy are network services: their answers are arbitrary inputs.
- ABI encoding, hashing, signatures and base64 are library code; hashes are opaque.
- `stripSubmitMetadata` and `attachSubmitMetadata` would only add easy members.
- `ensureBaseNftMinted` appears only through the ledger row and the membership it records.
- The queue actions UPDATE_XP and OPEN_LOOTBOX, which would charge half a credit each, are enqueued nowhere in the repository and are no operations of the runs.
- Portal and user-interface code, configuration readers and the image cache are not modelled.
