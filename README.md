# Gaming Gear Matcher — a verified model of its recommendation core

Gaming Gear Matcher is a Django site. It suggests gaming gear (mouse, keyboard, headset, monitor, chair) in two ways:

- from association rules mined over users' saved presets;
- from hand-written per-category heuristics.

It also lets users edit a temporary preset and save it. Its data is filled by a few scraping scripts. This project models the deterministic logic of that system in Dafny and proves what the code promises.

- **Association rules** (`association_rules.dfy`, module `AssociationRules`):
  - Presets become transactions.
  - The mined rules are filtered by lift, scored by confidence × lift and sorted.
  - A query keeps the rules whose antecedent the selection contains. It drops selected, unknown and excluded-type consequents, keeps the best score per gear, sorts and cuts to `top_n`.
  - The rule cache is a field of the `AssociationRuleMiner` class, and the process-wide miner is the `MinerRegistry` class.
  - The mining library is a parameter. Its output is tied to the textbook support, confidence and lift definitions.
- **Hybrid heuristics:**
  - `hybrid_scoring.dfy` (module `HybridScoring`): the sentiment formatter, spec parsing with its defaults, and the five per-category bonus tables.
  - `hybrid_recommender.dfy` (module `HybridRecommender`): the scoring loops, the stable descending sort and top-5 cut, the setup, and the Performance / Balanced / Pro variants with their capped score.
- **Price update** (`update_gear_prices.dfy`, module `PriceUpdate`): the three-tier price lookup, and the counting and apply loop over `GamingGear` objects whose `price` field is updated in place.
- **Import** (`import_real_data.dfy`, module `ImportRealData`): the nameless-item skip, the brand guess, the description templates, the fill-empty-description rule and the image-file matcher over a given directory listing.
- **Preset views** (`preset_views.dfy`, module `PresetViews`): the add/remove edit of the session's temporary preset list, and the 1..n numbering of saved preset entries.
- **Scraper string and list routines:**
  - `filenames.dfy`: file-name sanitisers and extension choosers.
  - `listing_scrape.dfy`: the paged list crawls with name dedup, and the review filter.
  - `player_images.dfy`: the player picture URL, safe name and extension.
  - `gear_scraper.dfy`: the unique-gear table with review-URL slugs.
- **Shared definitions:** `text.dfy` (Python string operations), `sorting.dfy` (a stable descending sort and Python slicing) and `wrappers.dfy` (`Option`).

What the environment supplies is passed in as parameters:

- **Database:** the catalog as a sequence, in database order; pro usage as a sequence of gear ids; presets as sequences of ids.
- **Cache:** the cache value.
- **Mining library:** its output, `None` when it raised.
- **Downloads:** page loads as a function from page number to rows, `None` when the load failed.
- **File system:** directory listings, `None` when the directory is missing.

## Model

| member | source | states |
|---|---|---|
| AssociationRules.GearIds | APP01/association_rules.py:64-68 | a preset's transaction holds at most one item per preset gear, and an id is in it exactly when it is the decimal text of some gear of the preset |
| AssociationRules.TransactionsNonEmpty | APP01/association_rules.py:62-70 | no transaction is empty; there are at most as many transactions as presets; every transaction is the gear ids of some preset, and every preset with gear contributes its transaction |
| AssociationRules.BuildTransactionData | APP01/association_rules.py:45-82 | the loop builds exactly the transactions of the non-empty presets; no presets gives no transactions |
| AssociationRules.Count | APP01/association_rules.py:84-140 | the number of transactions containing an itemset is at most the number of transactions |
| AssociationRules.Support | APP01/association_rules.py:84-140 | support is a fraction in [0, 1], positive when some transaction contains the itemset |
| AssociationRules.CountAntiMonotone | APP01/association_rules.py:84-140 | a larger itemset is contained in no more transactions (the Apriori property) |
| AssociationRules.RatioOfCounts | APP01/association_rules.py:84-140 | confidence as a ratio of supports equals the ratio of counts and lies in [0, 1] |
| AssociationRules.TextbookRuleBounds | APP01/association_rules.py:84-140 | a rule meeting the textbook definitions has confidence between the threshold and 1, and non-negative lift |
| AssociationRules.ScoreRules | APP01/association_rules.py:129-133 | the kept rules are exactly the mined rules with lift ≥ `min_lift`, each scored |
| AssociationRules.MinedRuleOrigin | APP01/association_rules.py:84-140 | every returned rule comes from a non-empty transaction set and a successful mining call, with lift ≥ `min_lift` |
| AssociationRules.MinedRuleScore | APP01/association_rules.py:131 | every returned rule's score is confidence × lift |
| AssociationRules.MinedRuleBounds | APP01/association_rules.py:107-133 | every returned rule meets the lift, confidence and support thresholds, and its confidence is at most 1 |
| AssociationRules.TextbookRuleOf | APP01/association_rules.py:103-127 | each mined rule satisfies the support/confidence/lift definitions over the item sets of the transactions |
| AssociationRules.MinedRulesComplete | APP01/association_rules.py:129-133 | every mined rule with enough lift is returned, and the list is sorted by descending score |
| AssociationRules.ConsequentCandidatesJustified | APP01/association_rules.py:176-204 | each candidate of one rule is justified: its antecedent ⊆ selection, the gear is a consequent, not selected, known and not of an excluded type |
| AssociationRules.CandidatesJustified | APP01/association_rules.py:176-204 | every candidate collected from the rules is justified |
| AssociationRules.DedupShape | APP01/association_rules.py:206-211 | the `seen` dictionary has distinct keys in first-seen order, covers every candidate's id, and maps each id to one of its candidates |
| AssociationRules.EarliestBestIsMax | APP01/association_rules.py:206-211 | the kept entry's score is the maximum over all candidates of that id |
| AssociationRules.EarliestKept | APP01/association_rules.py:208-209 | a candidate that is not strictly better leaves the kept entry in place |
| AssociationRules.EarliestNew | APP01/association_rules.py:208-209 | a strictly better candidate becomes the kept entry |
| AssociationRules.DedupEarliest | APP01/association_rules.py:206-211 | each id keeps the earliest candidate of maximal score (strict `>` comparison) |
| AssociationRules.DistinctIdsCountOne | APP01/association_rules.py:206-215 | in a list with distinct ids, no entry occurs twice |
| AssociationRules.RepeatedCountTwo | APP01/association_rules.py:206-215 | an entry at two positions occurs at least twice in the multiset |
| AssociationRules.DistinctIdsPermutation | APP01/association_rules.py:213-215 | sorting (a permutation) keeps ids distinct |
| AssociationRules.QueryMember | APP01/association_rules.py:206-215 | every returned recommendation is the kept entry of its gear id |
| AssociationRules.QueryJustified | APP01/association_rules.py:176-215 | every returned recommendation is justified by a rule and is the earliest best candidate of its id |
| AssociationRules.QueryShape | APP01/association_rules.py:163-215 | no rules gives no recommendations; at most `top_n` results, sorted by descending score, with distinct ids |
| AssociationRules.ConsequentNext | APP01/association_rules.py:185-204 | one more consequent appends exactly its candidates |
| AssociationRules.RuleCandidates | APP01/association_rules.py:180-204 | the inner consequent loop collects exactly the candidates of one rule |
| AssociationRules.CollectCandidates | APP01/association_rules.py:176-204 | the rule loop collects exactly the candidates of all rules, in order |
| AssociationRules.KeepBest | APP01/association_rules.py:206-211 | the dedup loop builds exactly the `seen` dictionary of the specification |
| AssociationRules.ConsequentCandidatesComplete | APP01/association_rules.py:185-202 | an eligible consequent (not selected, an integer naming a catalog gear of a type not excluded) yields its candidate, carrying the rule's metrics |
| AssociationRules.CandidatesComplete | APP01/association_rules.py:178-202 | every rule whose antecedents are all selected yields the candidate of each of its eligible consequents |
| AssociationRules.QueryComplete | APP01/association_rules.py:204-215 | no candidate is lost: its gear is recommended with a score at least as high, or all `top_n` places hold entries scoring at least as high |
| AssociationRules.QueryFindsEligible | APP01/association_rules.py:163-215 | every eligible consequent of a matching rule is recommended with at least that rule's score, or crowded out by `top_n` entries scoring at least as high |
| AssociationRules.Recommend | APP01/association_rules.py:173-215 | the query is the specified one: empty without rules, at most `top_n`, sorted, distinct ids, every entry justified, and (for `top_n >= 0`) every candidate either found with a score at least as high or crowded out by `top_n` better-or-equal entries |
| AssociationRules.AssociationRuleMiner.constructor | APP01/association_rules.py:32-43 | thresholds default to 0.05 / 0.3 / 1.0 and the cache starts empty |
| AssociationRules.AssociationRuleMiner.Expire | APP01/association_rules.py:160-171 | an expired cache entry reads as missing |
| AssociationRules.AssociationRuleMiner.GetRecommendations | APP01/association_rules.py:142-215 | a non-empty cached rule list is used, otherwise the rules are mined and cached only when non-empty; the result is the query over those rules |
| AssociationRules.AssociationRuleMiner.RefreshCache | APP01/association_rules.py:217-235 | success iff mining produced rules and the cache write did not raise; the cache is written exactly on success |
| AssociationRules.MinerRegistry.constructor | APP01/association_rules.py:238-239 | no miner exists at start |
| AssociationRules.MinerRegistry.GetMiner | APP01/association_rules.py:241-246 | the first call creates a default miner and later calls return that same object |
| HybridScoring.RoundHalfEven | APP01/recommender_hybrid.py:14 | rounding to an integer moves a value by at most one half |
| HybridScoring.RoundHalfEvenMonotone | APP01/recommender_hybrid.py:14 | rounding preserves order |
| HybridScoring.Round1 | APP01/recommender_hybrid.py:14 | one-decimal rounding moves a value by at most 0.05 and gives a multiple of 0.1 |
| HybridScoring.FormatValue | APP01/recommender_hybrid.py:8-19 | the formatted sentiment is the value capped at 9.9, rounded to one decimal, and 0 for a non-number |
| HybridScoring.FormatValueMonotone | APP01/recommender_hybrid.py:8-19 | a larger sentiment never formats smaller |
| HybridScoring.FormatSentiment | APP01/recommender_hybrid.py:8-19 | never more than 9.9, and 0 when the text does not parse as a number |
| HybridScoring.SentimentBonus | APP01/recommender_hybrid.py:72-80 | a sentiment bonus never exceeds its cap |
| HybridScoring.SentimentPart | APP01/recommender_hybrid.py:72-80 | a falsy raw sentiment adds nothing and no reason; otherwise the capped bonus of the formatted value, with at most one reason |
| HybridScoring.SentimentBonusMonotone | APP01/recommender_hybrid.py:72-80 | with a non-negative factor, a higher formatted sentiment never gives a lower bonus; a non-numeric one gives 0 |
| HybridScoring.ScaleMonotone | APP01/recommender_hybrid.py:78 | scaling by a non-negative factor keeps order |
| HybridScoring.ChairMaxWeight | APP01/recommender_hybrid.py:42-48 | the chair's max weight is the parsed value, and 100 when it is absent, empty or not numeric |
| HybridScoring.HundredDigits | APP01/recommender_hybrid.py:42-48 | the default text "100" is a decimal numeral of value 100 |
| HybridScoring.SixtyDigits | APP01/recommender_hybrid.py:646-651 | the default text "60" is a decimal numeral of value 60 |
| HybridScoring.DefaultMaxWeightParses | APP01/recommender_hybrid.py:42-48 | the chair default parses to 100 |
| HybridScoring.DefaultRefreshRateParses | APP01/recommender_hybrid.py:646-651 | the monitor default parses to 60 Hz |
| HybridScoring.ChairEntry | APP01/recommender_hybrid.py:21-86 | a chair entry keeps the gear and its raw sentiment, and scores at most 75 |
| HybridScoring.ParseMouseSpecs | APP01/recommender_hybrid.py:398-419 | length is the third `/`-part when there are exactly three and it parses, else 0.0; weight is the `g`-stripped weight text when it parses, else 999.0 |
| HybridScoring.MouseFit | APP01/recommender_hybrid.py:452-469 | hand-size bonuses: Small +30 below 12.0 / −20 above 12.5; Large +30 above 12.4 / −10 below 11.8; otherwise +15 in [11.5, 12.6] |
| HybridScoring.MouseFitExclusive | APP01/recommender_hybrid.py:452-469 | no length gives the full fit bonus to both small and large hands |
| HybridScoring.MouseGrip | APP01/recommender_hybrid.py:476-495 | the grip bonus lies in [−10, 30] |
| HybridScoring.MouseGenre | APP01/recommender_hybrid.py:498-515 | the genre bonus lies in [0, 35] |
| HybridScoring.LighterNeverWorseForFps | APP01/recommender_hybrid.py:498-505 | for FPS players a lighter mouse never gets a smaller weight bonus |
| HybridScoring.MouseEntry | APP01/recommender_hybrid.py:421-540 | a mouse entry keeps the gear and its raw sentiment, and scores at most 110 |
| HybridScoring.KeyboardLayout | APP01/recommender_hybrid.py:561-575 | the layout bonus lies in [0, 35] |
| HybridScoring.KeyboardEntry | APP01/recommender_hybrid.py:542-588 | a keyboard entry keeps the gear and its raw sentiment, and scores at most 55 |
| HybridScoring.HeadsetEntry | APP01/recommender_hybrid.py:590-628 | a headset scores at most 60, and 0 with no reasons when its sentiment is falsy |
| HybridScoring.RefreshRate | APP01/recommender_hybrid.py:646-651 | the refresh rate is the number left after removing "Hz", and 60 when absent or unparsable |
| HybridScoring.RefreshTier | APP01/recommender_hybrid.py:655-663 | +40 at ≥ 360 Hz, +30 at ≥ 240, +10 at ≥ 144, else 0 |
| HybridScoring.RefreshTierMonotone | APP01/recommender_hybrid.py:655-663 | a faster monitor never gets a smaller tier bonus |
| HybridScoring.MonitorFit | APP01/recommender_hybrid.py:653-680 | for FPS the bonus is the refresh tier plus 10 for a 1080 resolution; an unknown genre adds nothing; always in [−10, 55] |
| HybridScoring.MonitorEntry | APP01/recommender_hybrid.py:630-693 | a monitor entry keeps the gear and its raw sentiment, and scores at most 75 |
| HybridRecommender.Score | APP01/recommender_hybrid.py:21-86 | each category's entry keeps the gear and its sentiment and stays under that category's maximum |
| HybridRecommender.ScoredBy | APP01/recommender_hybrid.py:632-690 | filtering the catalog by type and scoring each kept gear gives at most one entry per catalog gear |
| HybridRecommender.ScoredByContents | APP01/recommender_hybrid.py:632-690 | for any scorer, the entries are exactly the scores of the catalog gears of the type, and there are none iff the catalog has no gear of the type |
| HybridRecommender.Scored | APP01/recommender_hybrid.py:421-538 | a scorer's list has no more entries than the catalog has gears |
| HybridRecommender.ScoredContents | APP01/recommender_hybrid.py:421-538 | the scored list holds exactly one entry per catalog gear of the category, each that gear's score, and is empty iff the category has no gear |
| HybridRecommender.RankedMember | APP01/recommender_hybrid.py:539-540 | every ranked entry is the score of a catalog gear of that category |
| HybridRecommender.RankedShape | APP01/recommender_hybrid.py:85-86 | at most five entries, sorted by descending score, empty iff the category has no gear |
| HybridRecommender.RankedOmitted | APP01/recommender_hybrid.py:539-540 | a gear left out of the top five is beaten or tied by all five shown |
| HybridRecommender.RankedStable | APP01/recommender_hybrid.py:587-588 | among equal scores the ranking keeps catalog order (the sort is stable) |
| HybridRecommender.ScoredStep | APP01/recommender_hybrid.py:635-690 | one loop step appends the entry of the next gear exactly when it is of the category |
| HybridRecommender.ScoreAll | APP01/recommender_hybrid.py:630-691 | the scoring loop builds exactly the scored list |
| HybridRecommender.Recommend | APP01/recommender_hybrid.py:692-693 | the scoring loop, the sort and the cut to five give exactly the ranked list, whose shape `RankedShape` and `RankedMember` state |
| HybridRecommender.First | APP01/recommender_hybrid.py:101-107 | `x[0] if x else None`: None iff empty, otherwise a best-scoring entry of a sorted list |
| HybridRecommender.SecondOrFirst | APP01/recommender_hybrid.py:253-258 | rank 2 when there are two entries, rank 1 when only one, None when empty |
| HybridRecommender.SetupOf | APP01/recommender_hybrid.py:100-108 | each slot of the setup is the first of its category's ranking |
| HybridRecommender.AllRanked | APP01/recommender_hybrid.py:93-98 | one ranking per category, in Mouse, Keyboard, Headset, Monitor, Chair order |
| HybridRecommender.RecommendAll | APP01/recommender_hybrid.py:93-98 | the five scorers are run in order |
| HybridRecommender.AllRankedInOrder | APP01/recommender_hybrid.py:93-98 | the rankings are, in order, those of Mouse, Keyboard, Headset, Monitor and Chair |
| HybridRecommender.RecommendSetup | APP01/recommender_hybrid.py:88-108 | a slot is empty iff its category has no gear, and otherwise scores at least as much as any gear of the category |
| HybridRecommender.FirstBeats | APP01/recommender_hybrid.py:100-106 | when the category has a gear, rank 1 exists and scores at least as much as any gear of the category |
| HybridRecommender.FirstIsBest | APP01/recommender_hybrid.py:88-108 | the first ranked entry is a best entry of its category |
| HybridRecommender.AddContext | APP01/recommender_hybrid.py:229-234 | None stays None; otherwise a copy with the original reasons plus exactly one new one, all else unchanged |
| HybridRecommender.VariantScoreRange | APP01/recommender_hybrid.py:142-156 | the variant score is at most 100, reaches 100 iff the total reaches 305, and has no lower floor |
| HybridRecommender.CalculateVariantScore | APP01/recommender_hybrid.py:142-156 | the accumulation loop computes the total of the filled slots / 305 × 100, capped at 100 |
| HybridRecommender.MostUsed | APP01/recommender_hybrid.py:319-325 | None iff the category has no gear; otherwise a gear of the category with a maximal pro usage count |
| HybridRecommender.ProChoice | APP01/recommender_hybrid.py:319-348 | pro choice is None iff no gear of the category; otherwise a most-used gear, score 95, with the usage reason only for a positive count |
| HybridRecommender.ProChoices | APP01/recommender_hybrid.py:350-356 | the pro list is the pro choice per category in order |
| HybridRecommender.ProScoreFull | APP01/recommender_hybrid.py:383-394 | with at least four filled pro slots the Pro variant scores exactly 100 |
| HybridRecommender.ProTotal | APP01/recommender_hybrid.py:149-152 | the total of all-95 slots is 95 × the number of filled slots |
| HybridRecommender.ComposeVariant | APP01/recommender_hybrid.py:236-248 | a variant holds each chosen slot with its context reason and the score of the chosen slots |
| HybridRecommender.BalancedOf | APP01/recommender_hybrid.py:253-259 | each Balanced slot is rank 2 of its category, rank 1 when it is alone, and empty only for an empty ranking |
| HybridRecommender.VariantsOf | APP01/recommender_hybrid.py:158-396 | Performance takes rank 1, Balanced rank 2 or 1, and Pro the pro choice, each with its context; Performance is scored on the setup, Balanced on its own slots and Pro on the pro choices |
| HybridRecommender.PerformanceContexts | APP01/recommender_hybrid.py:237-241 | one context text per category |
| HybridRecommender.RecommendVariantSetups | APP01/recommender_hybrid.py:110-396 | the three variants are the specified ones, and every variant score is at most 100 |
| PriceUpdate.GetPrice | APP01/management/commands/update_gear_prices.py:94-113 | the override wins; (brand, type) only without an override; ("", type) only when both miss; None iff all three miss |
| PriceUpdate.GamingGear.constructor | APP01/management/commands/update_gear_prices.py:35-92 | a gear row with its stored price |
| PriceUpdate.Processed | APP01/management/commands/update_gear_prices.py:39-42 | with `--overwrite` every gear, otherwise exactly the gears whose price is null |
| PriceUpdate.PricedUnpricedPartition | APP01/management/commands/update_gear_prices.py:44-76 | the gears with a price and those without partition the processed list |
| PriceUpdate.UpdateAll | APP01/management/commands/update_gear_prices.py:56-76 | `updated` counts the priced gears and `missing_items` lists exactly the unpriced ones; prices change only when applying and a price was found |
| PriceUpdate.Handle | APP01/management/commands/update_gear_prices.py:35-92 | `updated + missing == total`; `missing_items` is exactly the unpriced processed gears; a dry run changes no price; without `--overwrite` non-null prices stay |
| ImportRealData.ItemName | APP01/management/commands/import_real_data.py:94-96 | an item with neither a `Name` nor a `name` is skipped; otherwise its non-empty name, `Name` first |
| ImportRealData.FirstWord | APP01/management/commands/import_real_data.py:106 | the brand guess is the prefix of the name before the first space |
| ImportRealData.SafeName | APP01/management/commands/import_real_data.py:187 | the safe name has no spaces or quotes and is no longer than the name |
| ImportRealData.SafeNameAppend | APP01/management/commands/import_real_data.py:187 | the safe name of a concatenation is the concatenation of the safe names, so the characters keep their order |
| ImportRealData.SafeNameOne | APP01/management/commands/import_real_data.py:187 | a quote is dropped, a space becomes `_`, and any other character stays; with the append law this fixes the safe name of every text |
| ImportRealData.SafeNameIdempotent | APP01/management/commands/import_real_data.py:187 | making a safe name safe again changes nothing |
| ImportRealData.FirstMatch | APP01/management/commands/import_real_data.py:177-193 | a missing directory gives None; a result is a listed file that matches; None means no file matches |
| ImportRealData.FirstMatchIsFirst | APP01/management/commands/import_real_data.py:189-191 | the returned file is the first matching one in listing order |
| ImportRealData.FindImage | APP01/management/commands/import_real_data.py:177-193 | the early-return loop finds the first file whose lowercase name starts with the lowercase name or safe name |
| ImportRealData.ContainsMiddle | APP01/management/commands/import_real_data.py:25-69 | a text containing a field as an infix mentions it |
| ImportRealData.MouseDescription | APP01/management/commands/import_real_data.py:29-36 | the mouse description mentions the sensor, or its default |
| ImportRealData.KeyboardDescription | APP01/management/commands/import_real_data.py:38-41 | the keyboard description mentions the switches, or their default |
| ImportRealData.HeadsetDescription | APP01/management/commands/import_real_data.py:43-47 | the headset description mentions the driver size, or its default |
| ImportRealData.MonitorDescription | APP01/management/commands/import_real_data.py:49-54 | the monitor description mentions the refresh rate, or its default |
| ImportRealData.MousepadDescription | APP01/management/commands/import_real_data.py:56-60 | the mousepad description mentions the lowercased surface, or its default |
| ImportRealData.ChairDescription | APP01/management/commands/import_real_data.py:62-65 | the chair description mentions the lowercased material, or its default |
| ImportRealData.GenericDescription | APP01/management/commands/import_real_data.py:67-69 | the generic description mentions the lowercased category |
| ImportRealData.GenerateDescription | APP01/management/commands/import_real_data.py:25-69 | the description mentions the category's chosen spec, and any category outside the six known ones gets the generic template |
| ImportRealData.UpsertRow | APP01/management/commands/import_real_data.py:102-125 | a new row gets the category, the brand guess, the specs, the description and the image; an existing row keeps type, brand and specs, gets the description only when its own is empty, and gets the picture only when it has none |
| ImportRealData.ImportItem | APP01/management/commands/import_real_data.py:92-125 | a nameless item changes nothing; otherwise exactly its name is added or updated, to the get-or-create row with the description fill and the picture attach, every other row is untouched, and non-empty descriptions are kept |
| ImportRealData.ImportedRows | APP01/management/commands/import_real_data.py:92-125 | importing a file keeps existing rows, their type, brand and non-empty descriptions; new rows get the category and the brand guess |
| ImportRealData.NamesOf | APP01/management/commands/import_real_data.py:94-96 | the names of a file are exactly the names of its named items |
| ImportRealData.ImportedNames | APP01/management/commands/import_real_data.py:92-110 | after importing, the table holds exactly the old names plus the names of the named items |
| ImportRealData.GearTable.constructor | APP01/management/commands/import_real_data.py:71-125 | a table with the given rows |
| ImportRealData.GearTable.ImportGear | APP01/management/commands/import_real_data.py:92-125 | the item loop leaves the table as the specified import of the file |
| PresetViews.FirstIndex | APP01/views.py:224 | the index of the first occurrence of an id |
| PresetViews.RemoveFirst | APP01/views.py:224 | `list.remove` deletes exactly the first occurrence |
| PresetViews.EditList | APP01/views.py:217-228 | add appends a truthy id only when absent; remove deletes one occurrence only when present; anything else leaves the list unchanged |
| PresetViews.EditKeepsNoDuplicates | APP01/views.py:220-224 | an edit never creates a duplicate |
| PresetViews.EditMembership | APP01/views.py:220-224 | after add the id is present, and after remove it is absent, in a duplicate-free list |
| PresetViews.AddThenRemove | APP01/views.py:220-224 | adding an absent id then removing it gives back the list |
| PresetViews.Numbered | APP01/views.py:301-305 | the k-th id of the list gets order k + 1 |
| PresetViews.FirstUnknown | APP01/views.py:303 | None iff every id is a known gear; otherwise the position of the first unknown one |
| PresetViews.NumberGears | APP01/views.py:301-305 | the loop numbers the ids 1..n, stopping at the first unknown gear (the 404) |
| PresetViews.Session.constructor | APP01/views.py:212-213 | a session holding the given match result |
| PresetViews.Session.EditTempPreset | APP01/views.py:212-230 | without a match result it redirects to upload and changes nothing; otherwise the list is replaced by the single edit and it redirects to the result page |
| PresetViews.Session.SavePreset | APP01/views.py:283-319 | no match result or an empty list redirects to upload; an invalid form saves nothing; a valid one numbers the entries 1..n and clears the match result |
| PresetViews.FirstFailure | APP01/views.py:393-396 | the first position where the gear loop stops; none iff every value is stored |
| PresetViews.StoredCount | APP01/views.py:393-396 | the loop stores exactly the values before the first failure |
| PresetViews.StoredPrefix | APP01/models.py:206 | the values stored are integers naming known gears, pairwise distinct as `unique_together` demands |
| PresetViews.UpdatedIff | APP01/views.py:393-396 | the edit stores every value iff all are integers naming known gears and no two are equal |
| PresetViews.StoreGears | APP01/views.py:393-396 | the loop stores the values before the first failure with orders 1..n, and reports a non-integer value, an unknown gear (the 404) or a repeated gear (the `IntegrityError`) at the first failure |
| PresetViews.EditPreset | APP01/views.py:389-396 | the old entries are replaced by the selected values as far as the gear loop gets, with the loop's outcome; the stored gears are known and distinct |
| Filenames.ReplaceForbidden | data/download_all_gear_images.py:42 | each forbidden character becomes `_`, and all other characters stay in place |
| Filenames.Collapse | data/download_all_gear_images.py:43 | collapsing runs of a character class is empty iff the input is; a leading run becomes `_`, any other first character stays |
| Filenames.KeepAppend | data/download_all_gear_images.py:43 | the characters outside the class, in order, of a concatenation are those of each part |
| Filenames.KeepNone | data/download_all_gear_images.py:43 | a text made only of class characters keeps nothing |
| Filenames.KeepTrimLeft | data/download_all_gear_images.py:44 | trimming class characters off the front keeps every other character, in order |
| Filenames.KeepTrimRight | data/download_all_gear_images.py:44 | trimming class characters off the end keeps every other character, in order |
| Filenames.CollapseKeep | data/download_all_gear_images.py:43 | when `_` is in the class, collapsing keeps every character outside the class, in order |
| Filenames.RunStartsTrim | data/download_all_gear_images.py:43 | inside a run, the count of runs goes on from the end of that run |
| Filenames.CollapseCount | data/download_all_gear_images.py:43 | when `_` is in the class, the collapsed text has exactly one `_` per maximal run of the input |
| Filenames.KeepEmptyIff | data/download_all_gear_images.py:43-44 | nothing is kept exactly when every character is in the class |
| Filenames.CollapseLast | data/download_all_gear_images.py:43 | the collapsed text ends in `_` exactly when the input ends in a run |
| Filenames.CollapseRuns | data/download_all_gear_images.py:43 | empty iff the input is empty; starts with `_` iff the input starts with whitespace or `_` |
| Filenames.CollapseRunsContents | data/download_all_gear_images.py:43 | `re.sub(r'[\s_]+', '_', ...)` keeps every character that is neither whitespace nor `_`, in order, and has exactly one `_` per maximal run |
| Filenames.CollapseChars | data/download_all_gear_images.py:43 | collapsing introduces no character except `_`, and keeps none of the collapsed class |
| Filenames.CollapseSingleUnderscores | data/download_all_gear_images.py:43 | when `_` belongs to the collapsed class, there are no two consecutive `_` afterwards |
| Filenames.SanitizeFilename | data/download_all_gear_images.py:41-44 | the sanitised name neither starts nor ends with `_`, and keeps every character of the name that is neither whitespace nor `_`, in order, forbidden ones having become `_` |
| Filenames.SanitizeKeep | data/download_all_gear_images.py:41-44 | replace, collapse and strip keep the characters that are neither whitespace nor `_`, in order |
| Filenames.TrimLeftUnderscore | data/download_all_gear_images.py:44 | without `__`, `lstrip('_')` drops at most the first character |
| Filenames.TrimRightUnderscore | data/download_all_gear_images.py:44 | without `__`, `rstrip('_')` drops at most the last character |
| Filenames.NoDoubleSuffix | data/download_all_gear_images.py:43-44 | a suffix of a text without `__` has no `__` |
| Filenames.StripFrontCount | data/download_all_gear_images.py:44 | without `__`, `lstrip('_')` removes one `_` when the text starts with `_` and none otherwise |
| Filenames.StripBackCount | data/download_all_gear_images.py:44 | without `__`, `rstrip('_')` removes one `_` when the text ends with `_` and none otherwise |
| Filenames.StripUnderscoreCount | data/download_all_gear_images.py:44 | without `__`, `strip('_')` removes exactly one `_` at each end where there is one |
| Filenames.UnderscoresFirst | data/download_all_gear_images.py:44 | the `_` count of a text is that of its tail plus its first character's |
| Filenames.UnderscoresLast | data/download_all_gear_images.py:44 | the `_` count of a text is that of its front plus its last character's |
| Filenames.SanitizeUnderscores | data/download_all_gear_images.py:41-44 | the sanitised name has one `_` per maximal run of whitespace and `_`, less the leading run, and less the trailing run when something is kept |
| Filenames.CollapsedAllowed | data/gear_list_image_scraper.py:38-39 | a collapsed name of allowed characters has no forbidden character and no whitespace |
| Filenames.SanitizeClean | data/gear_all_images.py:35-38 | the sanitised name has no forbidden character, no whitespace and no `__` |
| Filenames.CleanInfix | data/gear_image_scraper.py:43-45 | any slice of a collapsed, forbidden-free name is clean, so stripping `_` leaves it clean |
| Filenames.CollapseNothing | data/download_all_gear_images.py:43 | a name whose only class characters are single `_` is unchanged by collapsing |
| Filenames.SanitizeIdempotent | data/download_all_gear_images.py:41-44 | sanitising twice is the same as once |
| Filenames.StripReviewSuffix | data/gear_image_scraper.py:39 | the result is a prefix of the name, and something is removed only when the name ends in whitespace + "Review" (any case) + optional whitespace |
| Filenames.StripReviewOf | data/gear_image_scraper.py:39 | a name ending in whitespace + "Review" + whitespace loses exactly that suffix and the whitespace before it |
| Filenames.TrimRightSkips | data/gear_image_scraper.py:39 | trailing whitespace is all that right-trimming removes |
| Filenames.SanitizeReviewFilename | data/gear_image_scraper.py:36-46 | the review sanitiser's result is clean, has no `_` at either end, and keeps every character of the suffix-free name that is neither whitespace nor `_`, in order |
| Filenames.ExtPngOrJpg | data/download_all_gear_images.py:187 | `.png` iff the lowercased URL contains ".png", else `.jpg` |
| Filenames.ExtByPriority | data/gear_image_scraper.py:166-173 | `.png`, then `.webp`, then `.jpeg` by what the lowercased URL contains, `.jpg` otherwise |
| Filenames.ExtWebpFirst | data/gear_all_images.py:134 | `.webp` iff the URL contains ".webp", else `.png` iff it contains ".png", else `.jpg` |
| Filenames.ChoosersAgree | data/gear_list_image_scraper.py:166-173 | the three choosers agree except on the ".webp" and ".jpeg" URLs they treat differently |
| ListingScrape.Names | data/download_all_gear_images.py:114 | the names of the collected rows, position by position |
| ListingScrape.Firsts | data/download_all_gear_images.py:112-116 | the rows that are the first of a new name are a sub-list of the page |
| ListingScrape.MergedNames | data/gear_list_image_scraper.py:102-104 | after merging, a name is present iff it was collected before or is on the page |
| ListingScrape.MergedIsFirsts | data/download_all_gear_images.py:112-116 | a merge keeps the list and appends exactly the first row of each new name, in page order |
| ListingScrape.MergedDistinct | data/gear_all_images.py:87-89 | merging keeps names distinct |
| ListingScrape.AnyNamed | data/download_all_gear_images.py:114 | the `any(...)` scan is true iff the name is already collected |
| ListingScrape.MergePage | data/download_all_gear_images.py:112-116 | the page loop gives the merge, and `new_items` counts exactly the appended rows |
| ListingScrape.CrawlProperties | data/download_all_gear_images.py:66-132 | a crawl keeps what was collected, keeps names distinct, and adds only rows shown on a visited page |
| ListingScrape.FirstPageFails | data/download_all_gear_images.py:74-77 | a first page that fails or is empty gives an empty list |
| ListingScrape.ScrapeAllGear | data/download_all_gear_images.py:57-132 | the page loop is the crawl stopping at a failed or empty page, at `expected_count` rows, or after page 100 |
| ListingScrape.ScrapeGearImages | data/gear_list_image_scraper.py:56-110 | the page loop is the crawl of at most 50 pages, stopping at a failed or empty page (likewise `data/gear_all_images.py` lines 51-95) |
| ListingScrape.ToFetch | data/gear_image_scraper.py:133-138 | a review is downloaded iff it has a non-empty name and URL |
| ListingScrape.ToFetchAppend | data/gear_image_scraper.py:133-138 | the filter of a concatenation is the concatenation of the filters, so reviews are fetched in file order |
| ListingScrape.ToFetchOne | data/gear_image_scraper.py:137-138 | one review is kept exactly when it has a name and a URL |
| PlayerImages.AbsoluteUrl | data/image_scraper.py:55-58 | "//" gets "https:", another "/" URL gets the site origin, anything else is unchanged |
| PlayerImages.AbsoluteUrlIdempotent | data/image_scraper.py:55-58 | making an absolute URL absolute again changes nothing |
| PlayerImages.RemoveForbidden | data/image_scraper.py:65 | a character survives iff it is not forbidden (deleted, not replaced) |
| PlayerImages.RemoveForbiddenAppend | data/image_scraper.py:65 | deletion of a concatenation is the concatenation of the deletions, so kept characters stay in order |
| PlayerImages.RemoveForbiddenOne | data/image_scraper.py:65 | a forbidden character is deleted and any other is kept |
| PlayerImages.SafePlayerName | data/image_scraper.py:63-66 | the safe name uses only non-forbidden characters of the name and has no surrounding whitespace |
| PlayerImages.SafePlayerNameStrip | data/image_scraper.py:65-66 | the safe name is a contiguous slice of the name with forbidden characters deleted, with only whitespace before and after it |
| PlayerImages.RFind | data/image_scraper.py:69 | the index of the last occurrence of a character, or −1 |
| PlayerImages.LastSep | data/image_scraper.py:69 | the index of the last `\` or `/`, the separators of Windows paths (the script saves to a Windows directory, line 89) |
| PlayerImages.SplitExt | data/image_scraper.py:69 | root + ext is the path; a non-empty ext starts with the last dot of the last component (after the last `\` or `/`), holds no further dot or separator, and is not a leading-dots name |
| PlayerImages.NoExtAfterSeparator | data/image_scraper.py:69 | a separator after the last dot leaves no extension |
| PlayerImages.BackslashUrlExt | data/image_scraper.py:69-71 | the URL `https://x/a.b\c` has no extension of its own and is saved as `.jpg` |
| PlayerImages.RFindSkips | data/image_scraper.py:69 | other characters appended do not move the last occurrence |
| PlayerImages.RFindOfName | data/image_scraper.py:69 | in base + "." + ext the last dot is the joining one and the last separator is the base's |
| PlayerImages.SplitExtAt | data/image_scraper.py:69 | the split is at the last dot when it follows the last separator past a non-dot |
| PlayerImages.DotJoinParts | data/image_scraper.py:69 | base + "." + ext cut at the dot gives both parts back |
| PlayerImages.NotAllDotsOfName | data/image_scraper.py:69 | appending a dot and an extension keeps a non-dot character in the base's last component |
| PlayerImages.SplitExtOfName | data/image_scraper.py:69 | splitting a joined name gives back its base and extension |
| PlayerImages.FileExt | data/image_scraper.py:69-71 | the URL's extension when it is non-empty and at most five characters, else ".jpg" |
| PlayerImages.PlayerFile | data/image_scraper.py:51-73 | nothing without a picture URL; otherwise the absolute URL and the file name safe name ("unknown" by default) + extension |
| PlayerImages.KeepLinks | data/image_scraper.py:130 | a link is kept iff it contains no "/page/" and is not the players index |
| PlayerImages.KeepLinksAppend | data/image_scraper.py:130 | the filter of a concatenation is the concatenation of the filters, so kept links stay in page order |
| PlayerImages.KeepLinksOne | data/image_scraper.py:130 | one link is kept exactly when it passes the test |
| GearScraper.Slug | data/gear_scraper.py:143 | the slug has no spaces, parentheses or upper-case ASCII, and is no longer than the name |
| GearScraper.SlugAppend | data/gear_scraper.py:143 | the slug of a concatenation is the concatenation of the slugs, so characters keep their order |
| GearScraper.SlugOne | data/gear_scraper.py:143 | a parenthesis is dropped, a space becomes `-`, any other character is lower-cased; with the append law this fixes the slug of every name |
| GearScraper.SlugIdempotent | data/gear_scraper.py:143 | slugging a slug changes nothing |
| GearScraper.ReviewUrl | data/gear_scraper.py:144 | the review URL is the reviews base, the slug and a final "/" |
| GearScraper.FirstNamed | data/gear_scraper.py:136-140 | the position of the first entry with a name |
| GearScraper.CollectWellFormed | data/gear_scraper.py:135-149 | every name is inserted once, and each maps to its own entry and review URL |
| GearScraper.CollectKeys | data/gear_scraper.py:139-140 | the table holds exactly the non-empty names met |
| GearScraper.CollectFirst | data/gear_scraper.py:140-149 | each name keeps the category of its first entry |
| GearScraper.CollectFirstOne | data/gear_scraper.py:140-149 | after one more entry, a name already present keeps its entry and a new name gets the last entry, its first occurrence |
| GearScraper.FirstNamedPrefix | data/gear_scraper.py:140 | later entries do not change a name's first entry |
| GearScraper.CollectNext | data/gear_scraper.py:139-149 | one more entry inserts its non-empty name with its info when absent, and otherwise changes nothing |
| GearScraper.FlattenNext | data/gear_scraper.py:135-138 | one more player appends that player's entries |
| GearScraper.CollectGear | data/gear_scraper.py:135-149 | the nested player/gear loops build exactly the specified table |
| GearScraper.CollectPlayer | data/gear_scraper.py:138-149 | the inner loop over one player's gear turns the table of the gear met before into the table of that gear followed by the player's |
| GearScraper.CollectSnoc | data/gear_scraper.py:140-149 | with the table held as its order and its items, one more entry adds its non-empty name with its info when absent and otherwise changes nothing |
| GearScraper.ToScrape | data/gear_scraper.py:159 | the first 100 entries in insertion order, or all of them when there are fewer |
| Sorting.InsertPermutes | APP01/recommender_hybrid.py:85 | inserting adds exactly one element |
| Sorting.InsertKeepsOrder | APP01/recommender_hybrid.py:85 | insertion keeps a list sorted by descending key |
| Sorting.SortDescSpec | APP01/recommender_hybrid.py:85 | `sort(key=score, reverse=True)` is a permutation of its input, of the same length, sorted by descending key |
| Sorting.InsertWithKey | APP01/recommender_hybrid.py:85 | an insertion puts an element ahead of the equal-key ones |
| Sorting.SortIsStable | APP01/recommender_hybrid.py:85 | equal keys keep their input order |
| Sorting.Prefix | APP01/association_rules.py:215 | `s[:n]` with Python's negative-bound meaning |
| Sorting.TopIsBest | APP01/recommender_hybrid.py:85-86 | an element left out of the top n is beaten or tied by all n shown |
| Sorting.PrefixOfSortFromInput | APP01/recommender_hybrid.py:85-86 | the top n come from the input |
| Sorting.WithKeyOfPrefix | APP01/recommender_hybrid.py:86 | the equal-key elements of a prefix are a prefix of those of the whole |
| Sorting.TopIsStable | APP01/recommender_hybrid.py:85-86 | the top n keep the input order among equal keys |
| Sorting.TopSorted | APP01/association_rules.py:213-215 | the top n are sorted, and there are min(n, length) of them |
| Text.LowerChar | data/gear_scraper.py:143 | ASCII upper case moves to lower case; other characters stay |
| Text.Lower | APP01/management/commands/import_real_data.py:190 | lower-casing is character by character |
| Text.ContainsAt | data/image_scraper.py:130 | a text containing the pattern at some position contains it |
| Text.RemoveChar | data/gear_scraper.py:143 | removal leaves no occurrence, and every other character keeps its number of occurrences |
| Text.RemoveCharAppend | data/gear_scraper.py:143 | removal from a concatenation is the concatenation of the removals, so kept characters stay in order |
| Text.RemoveCharOne | data/gear_scraper.py:143 | one character is removed when it is the given one and kept otherwise |
| Text.ReplaceChar | data/gear_scraper.py:143 | each occurrence is replaced, and other characters stay in place |
| Text.RemoveAbsent | data/gear_scraper.py:143 | removing an absent character changes nothing |
| Text.TrimLeft | data/image_scraper.py:66 | left-stripping removes exactly a prefix of dropped characters |
| Text.TrimRight | data/image_scraper.py:66 | right-stripping removes exactly a suffix of dropped characters |
| Text.StripChar | data/download_all_gear_images.py:44 | `strip('_')` leaves no `_` at either end |
| Text.StripCharInfix | data/download_all_gear_images.py:44 | the stripped text is a contiguous slice of the original |
| Text.StripSpaceInfix | data/image_scraper.py:66 | `strip()` leaves a contiguous slice with only whitespace before and after it |
| Text.StripSpaceFrom | data/image_scraper.py:66 | `strip()` adds no character |
| Text.Split | APP01/recommender_hybrid.py:404 | `split('/')` gives one more part than separators, none containing one |
| Text.SplitJoin | APP01/recommender_hybrid.py:404 | joining the parts with the separator gives the text back |
| Text.Pow10 | APP01/recommender_hybrid.py:408 | a power of ten is positive |
| Text.NatToDecimal | APP01/recommender_hybrid.py:42-48 | a decimal numeral for a natural number reads back as that number |
| Text.TrimNothing | data/image_scraper.py:66 | stripping a text with nothing to drop changes nothing |
| Text.ParseInt | APP01/association_rules.py:189 | `int()` accepts exactly optional surrounding whitespace, an optional sign and at least one decimal digit; a `-` sign gives a value at most 0, otherwise at least 0 |
| Text.SignedNat | APP01/association_rules.py:189 | after stripping, an optional sign before digits is accepted exactly when digits follow it, and the sign decides the value's sign |
| Text.ParseReal | APP01/recommender_hybrid.py:46 | `float()` fails on blank text; a `-` sign gives a value at most 0, otherwise at least 0 |
| Text.ParseRealOfInt | APP01/recommender_hybrid.py:649 | `float()` accepts every text `int()` accepts, with the same value |
| Text.DigitsDecimal | APP01/recommender_hybrid.py:408 | a non-empty digit string is an unsigned decimal literal worth its digits' value |
| Text.ParseIntOfDecimal | APP01/association_rules.py:189 | `int()` of a gear id rendered by `str()` (line 65) gives that id back |
| Text.SplitWithoutSeparator | APP01/recommender_hybrid.py:404 | a text without the separator splits into itself |
| Text.ParseRealOfDigits | APP01/recommender_hybrid.py:408 | `float()` of a digit string is its decimal value |

## Left out

- **Foreign libraries:**
  - mlxtend's `TransactionEncoder`, `apriori` and `association_rules`, and pandas, are not modelled. Their output is a parameter constrained by the textbook definitions: support = count / |T|, confidence = supp(A ∪ B) / supp(A), lift = confidence / supp(B).
  - A raised exception is `None`.
- **Django:**
  - The ORM queries, the cache backend, logging, `messages`, templates and redirects' HTTP side are I/O. Catalog, presets, pro usage, the cache value and form validity are parameters or fields.
  - Cache expiry is the explicit `Expire` method, not a clock.
- **Rule order:** pandas `sort_values` is not guaranteed stable. The model sorts the mined rules with the same stable sort, so the order of equal-score rules is one possible order.
- **Pro choice:** the tie-break depends on database ordering. `HybridRecommender.MostUsed` promises only some gear of maximal count.
- **Floats:**
  - Python floats are modelled as `real`, with no binary rounding, no exponents in `float()` text, and no inf or nan.
  - `int()` and `float()` also accept `_` digit separators and non-ASCII decimal digits; `Text.ParseInt` and `Text.ParseReal` reject both.
  - `round(x, 1)` is modelled as exact half-even rounding on the decimal value.
- Text.ParseReal: its contract states that blank text fails, the sign of the value, and agreement with `int()` (`Text.ParseRealOfInt`). The accepted decimal-literal form (at most one point, at least one digit) is given by its definition and not restated as a contract.
- **Specs:**
  - Gear specs are `map<string, string>`. A JSON number and its text are not distinguished.
  - Specs stored as unparsable JSON text are read as an empty map, as the scorers do.
  - The model assumes dict specs. A `None` or list value, or JSON text that decodes to something other than an object, makes the scorers' `specs.get(...)` raise `AttributeError`; that crash is not modelled. Only `get_pro_choice` falls back to `{}`, and only for a value that is not a string.
- **Reason texts:** reasons are a datatype carrying the interpolated values. The text rendering, and the narrative analysis, pros and cons of the variants, are left out.
- **Character handling:**
  - Lower-casing is ASCII-only.
  - `re.IGNORECASE` matching of "Review" is ASCII-only.
  - `\s` is the character set of `str.isspace`.
  - `GearScraper.Slug`: Unicode `lower()` is modelled as ASCII lower-casing, so the upper-case guarantee covers ASCII letters only.
- **Other views:** image matching in `upload_image_and_match`, and all other views, forms, admin, middleware and URL configuration, are request plumbing and a stub feature.
- **`import_pro_players`:** not modelled; it is database plumbing around `icontains` lookups.
- ImportRealData.ImportItem, ImportRealData.ImportedRows and ImportRealData.GearTable.ImportGear key the gear table by name, so they assume names are unique. `GamingGear.name` has no unique constraint (APP01/models.py:150), and `get_or_create(name=...)` (APP01/management/commands/import_real_data.py:102) raises `MultipleObjectsReturned` when two rows already share a name; that error is not modelled.
- **`ImportRealData.FindImage`:** returns the matching file name rather than the directory-joined path, and the file copy into Django storage is left out.
- **Scraper I/O:**
  - Playwright navigation, the page-side JavaScript, aiohttp downloads, sleeps, JSON files and the `downloaded` / `skipped` counters are I/O.
  - A page's rows are a parameter, so the JavaScript's own filters (non-empty name and image) are not modelled.
- **image_scraper.py:** the page-side URL dedup of `data/image_scraper.py` (its JavaScript) and the player-page scraping around the picture step are not modelled.
- **gear_scraper.py:** `scrape_gear_details` of `data/gear_scraper.py` is page scraping and is not modelled.
- **`ListingScrape.CrawlProperties`:** requires the start page to be at most the last page, which every caller meets (they start at page 1).
- **`PresetViews.EditPreset`:** models a valid POST only; the form's name update and the invalid-form page are request plumbing. A non-integer value is reported as `BadId`, where Django answers with a server error.
- **Wrappers:** `get_gear_recommendations` and `refresh_association_rules`, the module-level wrappers, are one-line calls of the modelled methods.
- **`HybridRecommender.VariantScoreRange`:** proved without a body; its statement is the cap, with the explicit absence of a lower floor.

Behaviour of the code worth noting:

- The Pro variant has no sentiment fallback when usage data is missing: any gear of the category is chosen, with count 0.
- The aggregate variant score has no lower floor: only `min(..., 100)` is applied.
- `refresh_cache` has no "fewer than two transactions" check: it succeeds whenever mining returns rules.
- An empty selection is not rejected by `get_recommendations`: it simply matches only rules with an empty antecedent.
