# Magazine stand back office: a verified model of the catalog logic

The service runs a newsstand's back office. It keeps a catalog of magazines ("revistas") with their stock. It reads delivery notes ("notas de entrega") and return slips ("chamadas de devolução") that a language model has extracted from PDFs into JSON. It answers catalog searches and a sales dashboard.

This project models the part of the service that decides things:

- **Three catalog reconciliations.** Each walks the "revistas" list of an extracted document and writes to the catalog:
  - the exact-key delivery router (`Entradas`) adds delivered quantities to stock or creates magazines;
  - the return router (`Devolucoes`) only links existing magazines, or creates "legacy" ones with stock 0;
  - the fuzzy delivery router (`Entregas`) matches names by similarity, within the same edition and the same premium class.
- **The endpoints around them.** Header checks, the document insert, the duplicate check of the return router (made before the costly extraction) and the confirmation that closes a return slip.
- **The catalog searches.** By name or nickname (`Revistas`, and the older `/busca` router in `Busca`), by barcode and by edition.
- **The helpers of the extraction services.** The recursive type normalisation of the extracted JSON, the answer clean-up and key check, the empty-text guard (`Normalize`), and the text helpers of the OCR script (`OcrTexto`).
- **The reports.** The dashboard's revenue, average ticket and best-seller ranking, the single-value KPIs, and the deadline alerts (`Relatorios`).

## How the system is modelled

- **The database is a class.** `Catalog.Store` holds the tables the service writes, as sequences in table order: magazines, delivery links, return links, return slips and delivery documents. It also holds an id generator. Each store call is one method. Its `failed` argument says whether the call raises, and its `ensures` gives the new tables exactly.
- **Every router operation comes twice.**
  - A function (`Reconcile`, `Entrada`, `Devolucao`, `PorNome`, `Dashboard`, …) states what the operation computes: the answer and the tables after it.
  - A method with the source's loops and its `break`/`continue`/`raise` control flow works on the `Store` or on the rows. It is proved to produce exactly what the function says.
  - The properties of the source are lemmas about the functions.
- **A loop that changes things is a fold from the end.** The item loop of each reconciliation is `Fold(r0, items)`, equal to `Step(Fold(r0, items[..n-1]), items[n-1])`. It carries a `Run`: the tables, the lookup dictionary or catalog snapshot, the two counters, and whether the loop stopped.
- **Outside collaborators become parameters.** These are:
  - which store call fails for which item (`fail: (nat, Call) -> bool`);
  - whether reading the catalog fails (`fetchFails`);
  - the similarity score of rapidfuzz's `token_sort_ratio` (`sim`, 0 to 100);
  - the PDF text, the language model and `json.loads` (`text`, `model`, `decode`);
  - `%Y-%m-%d` date parsing (`parseDate`);
  - today's date, as a day number.
- **Python's operations are spelled out.** `str.strip`, `lower`, `find`, `int()`, `str(int)`, `splitlines`, `dict.get` and truthiness live in `PyText` and `PyJson`.

## Model

| member | source | states |
|---|---|---|
| PyText.LStripSpec | services/extracao.py:102 | `lstrip` removes a prefix made only of whitespace and leaves no whitespace in front |
| PyText.RStripSpec | services/extracao.py:102 | `rstrip` removes a suffix made only of whitespace and leaves no whitespace at the end |
| PyText.StripIdempotent | services/extracao.py:102 | a stripped string has nothing left to strip |
| PyText.StripFixed | services/extracao.py:102 | a string with non-space ends is its own strip |
| PyText.StripPadded | services/extracao.py:102 | the whitespace around a core with non-space ends is exactly what `strip` removes |
| PyText.StripIsInfix | services/extracao.py:102 | `strip` only removes surrounding characters: the result sits inside the input |
| PyText.Find | routers/entregas.py:53 | `sub in s`: the position found is an occurrence at or after the start, and no earlier occurrence exists; None means no occurrence at all |
| PyText.FindAt | routers/entregas.py:53 | any first occurrence at or after the start is the one `find` returns |
| PyText.NatToString | routers/entradas.py:72 | `str(n)` is a digit string without leading zero whose decimal value is `n` |
| PyText.ParseInt | routers/entradas.py:72 | `int(s)` succeeds exactly when, after stripping whitespace and an optional sign, digits remain, grouped by single underscores; its value is the signed decimal value of those digits |
| PyText.IntToStringRoundTrip | routers/entradas.py:72 | `int(str(i)) == i` for every integer |
| PyText.ParseIntLeadingZero | routers/entradas.py:72 | "07" and "7" read as the same integer, so they give the same edition key |
| PyText.ParseIntDigits | routers/entradas.py:72 | a digit string reads as its decimal value |
| PyText.ParseIntGrouped | routers/entradas.py:72 | "1_000" reads as the same integer as "1000" |
| PyText.SplitLines | services/ocr_pra_json.py:53 | no line produced by `splitlines` contains a line break |
| PyText.SplitLinesJoin | services/ocr_pra_json.py:53 | joining the lines with "\n" gives the text back, less one final line break if it had one |
| PyJson.Get | routers/entradas.py:32 | `d.get(key)` is present exactly when the key is, and then holds a value stored under that key |
| PyJson.IntStringIsFloat | services/extracao.py:109-110 | every string `int()` reads is also a float literal, a finite one with that integer value |
| PyJson.FloatWithExponent | services/extracao.py:109-110 | "<digits>e<digits>" is the finite float of that mantissa and exponent, and `int()` of it is the mantissa times that power of ten |
| PyJson.FloatWithPoint | services/extracao.py:109-110 | "<digits>.<digits>" is a finite float, and `int()` of it drops the fraction |
| PyJson.FloatSpecialWords | routers/entradas.py:72 | "nan", "inf" and "infinity", in any letter case, padding and sign, are floats: `int()` of NaN is a ValueError, of an infinity an OverflowError, and both are truthy |
| Seqs.FirstWhere | routers/revistas.py:85-98 | the position found satisfies the test and no earlier one does; None exactly when no element does |
| Seqs.FirstWhereAt | routers/revistas.py:85-98 | a position that passes, with none passing before it, is the one found |
| Seqs.FindFirst | routers/revistas.py:85-98 | the scan that returns at the first element passing the test finds the position `FirstWhere` defines |
| Seqs.Filter | routers/revistas.py:113-127 | the result list keeps only passing elements and is no longer than the input |
| Seqs.Positions | routers/revistas.py:113-127 | the positions of the passing elements: every one of them, each passing, in increasing order |
| Seqs.FilterIsPositions | routers/revistas.py:113-127 | the appended results are exactly the elements at those positions, in catalog order |
| Seqs.PositionsExactly | routers/revistas.py:113-127 | a position is listed exactly when its element passes |
| Seqs.FilterEmpty | routers/revistas.py:129-130 | the result list is empty exactly when no element passes |
| Seqs.FilterAppend | routers/revistas.py:113-127 | filtering a concatenation filters each part |
| Seqs.CollectWhere | routers/revistas.py:113-127 | the append loop, where building a result can raise: it returns the filtered list exactly when every kept element can be built |
| Catalog.IdsUnique | routers/revistas.py:20-26 | increasing magazine ids identify their rows |
| Catalog.SetStockKeepsIds | routers/entradas.py:96-98 | a stock update keeps every row's identity and the id order |
| Catalog.AddRevista | routers/entradas.py:123 | an insert appends one row under the next id, keeps the tables valid and leaves the other tables alone |
| Catalog.FirstWithBarcode | routers/devolucoes.py:84-86 | the re-select by barcode finds the first row carrying that barcode, and finds one exactly when the barcode is taken |
| Catalog.IntTextIsNotNone | routers/entradas.py:46 | the text of an integer is never "None" |
| Catalog.TagMatchesText | routers/entradas.py:46 | keying editions on integers agrees with keying on `str(edition)` against `str(int(...))`, for both ways of reading a null edition |
| Catalog.IndexSound | routers/entradas.py:42-50 | every entry of a dictionary filled entry by entry was written by some entry |
| Catalog.IndexLastWins | routers/entradas.py:42-50 | in such a dictionary the last entry with a key wins |
| Catalog.Entries | routers/entradas.py:43-51 | one lookup entry (or none) per catalog row |
| Catalog.LookupSound | routers/entradas.py:42-50 | every lookup entry comes from a row with a non-blank name and that key, and carries its id and stock |
| Catalog.LookupLastWins | routers/entradas.py:42-50 | every named row is reachable through its key unless a later row has the same key |
| Catalog.LoadLookup | routers/entradas.py:42-50 | the lookup-building loop builds exactly the row-by-row dictionary |
| Catalog.Store.constructor | routers/revistas.py:18 | the store starts from the given valid tables |
| Catalog.Store.UpdateStock | routers/entradas.py:96-98 | on success the stock of the row with that id is set; on failure nothing changes |
| Catalog.Store.InsertRevista | routers/devolucoes.py:68-88 | a taken non-null barcode violates the unique constraint and changes nothing; otherwise a failure changes nothing and a success appends one row under the next id |
| Catalog.Store.SelectRevistas | routers/revistas.py:20-26 | `pegar_revistas`: every magazine row in table order, or a failure |
| Catalog.Store.SelectByBarcode | routers/devolucoes.py:84-86 | the id of the first row with that barcode, if any |
| Catalog.Store.InsertEntregaLink | routers/entradas.py:140-144 | on success one delivery link is appended; on failure nothing changes |
| Catalog.Store.InsertDevolucaoLink | routers/devolucoes.py:96-102 | on success one return link is appended; on failure nothing changes |
| Catalog.Store.ExistsChamada | routers/devolucoes.py:173-181 | the duplicate query answers whether this user has a slip with this deadline |
| Catalog.Store.InsertChamada | routers/devolucoes.py:223-231 | on success one open slip of this user with this deadline is appended under the id it returns |
| Catalog.Store.InsertDocumento | routers/entradas.py:198-210 | on success one delivery document of this user and date is appended under the id it returns |
| Catalog.Store.CloseChamada | routers/devolucoes.py:269-274 | closes the user's slips with this id and answers whether any matched |
| Entradas.ReadItem | routers/entradas.py:59-80 | after a non-blank stripped name, an OverflowError from `int()` on the edition, or on the quantity once the edition has been read, escapes the loop; an item is skipped exactly when its name is blank or, without such an error, its edition (null read as 0), quantity or price does not convert; so every other item is ready, with the edition `int()` reads and the quantity clamped at 0 |
| Entradas.Classify | routers/entradas.py:56-59 | every read item is keyed by its own name and edition |
| Entradas.Missing | routers/entradas.py:187-196 | the missing header fields are exactly those absent or null, in the order they are checked |
| Entradas.ReadHeaderRejects | routers/entradas.py:161-217 | an accepted header has all three fields; a missing-fields rejection names exactly the absent ones, in order; an empty upload is a 400 |
| Entradas.ReconcileGuarantees | routers/entradas.py:25-152 | an empty list writes nothing; each item moves at most one counter; old rows keep all but their stock; new rows have distinct keys the catalog lacked; links are appended for this document, existing magazines and non-negative quantities, one per counted item when no link insert fails; other tables are untouched |
| Entradas.RunGuarantees | routers/entradas.py:56-150 | the same guarantees for the item loop, whether or not it stopped |
| Entradas.FoldCounts | routers/entradas.py:101-127 | the counters never go down and together grow by at most the number of items |
| Entradas.FoldLinkCount | routers/entradas.py:136-146 | with no failing link insert, every counted item has exactly one link row |
| Entradas.NewRowsDistinct | routers/entradas.py:129-130 | since each created row joins the lookup, one note never creates two rows with the same key |
| Entradas.FoldCrashed | routers/entradas.py:56-150 | once a non-conversion exception escapes an item, the later items change nothing |
| Entradas.FoldSnoc | routers/entradas.py:56 | the loop over one more item is one more step |
| Entradas.StepAddsToStock | routers/entradas.py:88-104 | a matched item adds its quantity to the current stock of the row the lookup names and to no other row, then appends one link unless that insert fails |
| Entradas.MatchedRowHasEdition | routers/entradas.py:46 | a matched catalog row has the item's edition and name key, so a row with a null edition (keyed "None") is never matched |
| Entradas.SecondCopyUpdates | routers/entradas.py:127-130 | a new magazine twice in one note: the first copy creates the row, the second adds to it, leaving twice the quantity |
| Entradas.SkippedItemChangesNothing | routers/entradas.py:148-150 | an item with a blank name, or an edition, quantity or price that fails to convert without an OverflowError, changes nothing |
| Entradas.StoreFailureIsLogged | routers/entradas.py:106-108 | a failed update or insert leaves the run as it was, a failed link insert only loses its link row, none of them stops the loop, and the counter moves exactly when the row write succeeds |
| Entradas.FoldWithoutCrash | routers/entradas.py:56-152 | a list none of whose items escapes the loop never stops it, whichever store calls fail |
| Entradas.StoreFailuresContinue | routers/entradas.py:132-152 | once the catalog is read, a list of objects with no OverflowError is always counted and answered, whichever store calls fail |
| Entradas.ProcessItems | routers/entradas.py:56-150 | the item loop over the store ends in exactly the tables and counters of the fold |
| Entradas.ApplyItem | routers/entradas.py:84-146 | one item against the store does exactly one step |
| Entradas.CadastrarRevistasDb | routers/entradas.py:25-152 | the routine against the store gives exactly the result and tables of `Reconcile` |
| Entradas.EntradaGuarantees | routers/entradas.py:155-233 | every header rejection leaves the tables as they were; a 201 means the header checks passed and one document row was added under the id it reports |
| Entradas.RegisterGuarantees | routers/entradas.py:208-224 | after the header checks the endpoint answers 201 or 500 and has added exactly the document row it reports |
| Entradas.CadastrarChamada | routers/entradas.py:155-233 | the endpoint against the store gives exactly the answer and tables of `Entrada` |
| Entradas.RegistrarEntrega | routers/entradas.py:208-233 | the document insert and the reconciliation against the store match `Register` |
| Devolucoes.ReadItemKeys | routers/devolucoes.py:109-123 | a non-blank item aborts the slip exactly when `int()` of its edition overflows, and is skipped exactly when its name is blank or its non-null edition fails `int()` otherwise; every other item is ready, with a non-blank stripped name, the edition `int()` reads unless null, and the key of the stripped lower-cased name with a null edition as 0 |
| Devolucoes.ReconcileGuarantees | routers/devolucoes.py:24-153 | an empty list writes nothing; old rows are untouched, stock included; new rows have stock 0; links are appended for this slip and existing magazines, with equal received and to-return quantities; on success one link per counted item; other tables are untouched |
| Devolucoes.RunGuarantees | routers/devolucoes.py:107-151 | the same guarantees for the item loop |
| Devolucoes.FoldCounts | routers/devolucoes.py:141-143 | each item is associated at most once |
| Devolucoes.FoldAborted | routers/devolucoes.py:148-151 | once an item aborts the slip, the later items change nothing |
| Devolucoes.FoldSnoc | routers/devolucoes.py:107 | the loop over one more item is one more step |
| Devolucoes.NullEditionMatches | routers/devolucoes.py:49 | a catalog row with a null edition is found by an item with the same name and no edition |
| Devolucoes.MatchedItemKeepsCatalog | routers/devolucoes.py:125-128 | a matched item only lends its id: no row is written, no creation counted, one link follows unless it fails |
| Devolucoes.LegacyRowCreatedOnce | routers/devolucoes.py:130-138 | an unmatched item with a free barcode creates one row with stock 0 under the next id, counts it and remembers it, so the same item again creates nothing |
| Devolucoes.UniqueViolationReselects | routers/devolucoes.py:79-86 | with a taken barcode the first row with that barcode is used instead; no row is created, yet the creation is counted |
| Devolucoes.FailureAborts | routers/devolucoes.py:88-104 | any other failed insert, a failed re-select or a failed link insert aborts the slip |
| Devolucoes.SkippedItemChangesNothing | routers/devolucoes.py:145-147 | an item with a blank name, or an edition that `int()` rejects with a ValueError or TypeError, changes nothing |
| Devolucoes.InserirRevistaLegada | routers/devolucoes.py:59-88 | the legacy insert against the store gives exactly `Legacy`, and changes nothing when it fails |
| Devolucoes.ApplyItem | routers/devolucoes.py:108-151 | one item against the store does exactly one step |
| Devolucoes.ResolveItem | routers/devolucoes.py:119-143 | a ready item against the store: the lookup's id or a legacy row's, then the link |
| Devolucoes.ProcessItems | routers/devolucoes.py:107-151 | the item loop over the store ends in exactly the state of the fold |
| Devolucoes.CadastrarRevistasDb | routers/devolucoes.py:24-153 | the routine against the store gives exactly the result and tables of `Reconcile` |
| Devolucoes.DuplicateRejectedBeforeExtraction | routers/devolucoes.py:167-202 | a duplicate by the locally read deadline answers 409 and leaves the tables alone, whatever the extraction would return |
| Devolucoes.DevolucaoGuarantees | routers/devolucoes.py:156-252 | 400 and 409 leave the tables as they were; 409 exactly for a duplicate by the local deadline; a 201 adds one open slip of this user with the extracted deadline under the id it reports |
| Devolucoes.RegisterGuarantees | routers/devolucoes.py:223-252 | after the checks the endpoint answers 201 or 500, keeps the open slip in any case, and leaves old catalog rows untouched |
| Devolucoes.CadastrarDevolucao | routers/devolucoes.py:156-252 | the endpoint against the store gives exactly the answer and tables of `Devolucao` |
| Devolucoes.RegistrarDevolucao | routers/devolucoes.py:223-243 | the slip insert and the reconciliation against the store match `Register` |
| Devolucoes.ConfirmarGuarantees | routers/devolucoes.py:255-287 | 200 exactly when the id is at least 1 and the user owns the slip; it closes that slip only; any other answer leaves the tables alone |
| Devolucoes.ConfirmarTwice | routers/devolucoes.py:269-274 | confirming an already closed slip succeeds again and changes nothing more |
| Devolucoes.ConfirmarDevolucao | routers/devolucoes.py:255-287 | the endpoint against the store gives exactly the answer and tables of `Confirmar` |
| Entregas.ReadItem | routers/entregas.py:57-63 | an item raises out of the loop exactly when `int()` overflows on its edition, or on its quantity once the edition is read; it is skipped exactly when otherwise its name is blank or its edition (missing is 0, null fails), quantity `int(qtd or 0)` or price does not convert; a ready item carries those values unclamped |
| Entregas.Classify | routers/entregas.py:55-63 | an element raises out of the loop exactly when it is not an object or overflows, since neither `.get` on a non-object nor OverflowError is a `ValueError` or `TypeError` |
| Entregas.ContainsAt | routers/entregas.py:53 | an occurrence at some position makes `sub in s` true |
| Entregas.LowerConcat | routers/entregas.py:52 | lower-casing distributes over concatenation |
| Entregas.PremiumAnywhere | routers/entregas.py:50-53 | a premium name stays premium whatever is written before or after it |
| Entregas.EditionFilterIsEquality | routers/entregas.py:76-77 | the edition filter passes exactly when the catalog edition equals the item's, so a null catalog edition never passes |
| Entregas.FirstMatch | routers/entregas.py:70-87 | the position chosen matches (same edition, same premium class, score at least 95) and no earlier entry does; None when no entry matches |
| Entregas.FirstMatchAt | routers/entregas.py:70-87 | a matching entry with no match before it is the one chosen |
| Entregas.FindMatch | routers/entregas.py:70-87 | the scan with its `continue`s and `break` finds exactly `FirstMatch` |
| Entregas.FirstNotBest | routers/entregas.py:84-87 | the first acceptable entry wins over a later, better-scoring one |
| Entregas.PremiumNeverMatchesPlain | routers/entregas.py:79-81 | a premium name and a plain one are never matched, whatever their similarity |
| Entregas.ReconcileGuarantees | routers/entregas.py:28-138 | an empty list writes nothing; each item moves at most one counter; old rows keep all but their stock; on success one row per created item and one link per counted item; links are for this document and existing magazines; other tables are untouched |
| Entregas.RunGuarantees | routers/entregas.py:55-136 | the same guarantees for the item loop, whether or not it aborted |
| Entregas.StepCounts | routers/entregas.py:104-127 | one item moves at most one counter, by one |
| Entregas.FoldCounts | routers/entregas.py:104-127 | the counters never go down and together grow by at most the number of items |
| Entregas.FoldAborted | routers/entregas.py:105-132 | once a store failure raises, the later items change nothing and earlier ones stay written |
| Entregas.FoldSnoc | routers/entregas.py:55 | the loop over one more item is one more step |
| Entregas.StepAddsToStock | routers/entregas.py:89-104 | a matched item adds its quantity, unclamped, to that row only, appends one link with that quantity, and the snapshot sees the new stock |
| Entregas.NegativeQuantityLowersStock | routers/entregas.py:92 | a negative delivered quantity lowers the matched row's stock |
| Entregas.SecondCopyDuplicates | routers/entregas.py:111-127 | a new magazine twice in one note creates two rows, since the snapshot never sees the first |
| Entregas.FailureAborts | routers/entregas.py:105-132 | a failed update, insert or link insert aborts the loop without counting the item |
| Entregas.SkippedItemChangesNothing | routers/entregas.py:134-136 | an item whose conversions fail without an OverflowError, or whose name is blank, changes nothing |
| Entregas.UpdateMatched | routers/entregas.py:89-109 | the matched branch against the store is exactly the update step |
| Entregas.InsertUnmatched | routers/entregas.py:111-132 | the unmatched branch against the store is exactly the insert step |
| Entregas.ApplyItem | routers/entregas.py:56-136 | one item against the store does exactly one step |
| Entregas.ProcessItems | routers/entregas.py:55-136 | the item loop over the store ends in exactly the state of the fold |
| Entregas.CadastrarRevistasDb | routers/entregas.py:28-138 | the routine against the store gives exactly the result and tables of `Reconcile` |
| Entregas.ExtractionFailureIs500 | routers/entregas.py:151-154 | every extraction failure, an empty text included, answers 500 instead of the 400 meant for invalid JSON |
| Entregas.HeaderKeyNeverMissing | routers/entregas.py:156-160 | an extracted note always has its header key, so the missing-key 400 never fires; a 400 comes from a null header or a bad date |
| Entregas.ReadHeaderRejects | routers/entregas.py:147-205 | an accepted header has all three fields and a date that parses; a missing-fields rejection names exactly the absent ones, in order; an empty upload is a 400 |
| Entregas.AnswerGuarantees | routers/entregas.py:141-218 | every header rejection leaves the tables as they were; a 201 adds one document row under the id it reports |
| Entregas.RegisterGuarantees | routers/entregas.py:196-218 | after the header checks the endpoint answers 201 or 500 and has added exactly the document row it reports |
| Entregas.CadastrarChamada | routers/entregas.py:141-218 | the endpoint against the store gives exactly the answer and tables of `Entrega` |
| Entregas.RegistrarEntrega | routers/entregas.py:196-218 | the document insert and the reconciliation against the store match `Register` |
| Revistas.Max | routers/revistas.py:52 | `max` of two scores is at least each and is one of them |
| Revistas.NameHitsInOrder | routers/revistas.py:43-67 | the results are the accepted entries with their scores, in catalog order |
| Revistas.NameHitsExactly | routers/revistas.py:54 | an entry is accepted exactly when its score is at least 70 |
| Revistas.PorNomeErrors | routers/revistas.py:38-41 | an unreadable or empty catalog answers 500, and the only errors are 404 and 500 |
| Revistas.PorNomeNotFound | routers/revistas.py:69-70 | 404 exactly when the catalog has entries and none scores at least 70 |
| Revistas.PorNomeFound | routers/revistas.py:43-72 | a success answers the accepted entries, at least one, each presentable |
| Revistas.ObterRevistasPorNomeOuApelido | routers/revistas.py:32-72 | the endpoint over the store answers exactly `PorNome` |
| Revistas.PorCodigoBarrasGuarantees | routers/revistas.py:74-100 | a success is the first entry whose stripped barcode text equals the stripped query; no match is an error; every error is 500 |
| Revistas.NullBarcodeMatchesNoneText | routers/revistas.py:87 | a null barcode reads "None": the query "None" finds such an entry, and presenting it fails with 500 |
| Revistas.FindByBarcode | routers/revistas.py:85-100 | the search loop that returns at the first match answers exactly `PorCodigoBarras` |
| Revistas.ObterRevistaPorCodigoBarras | routers/revistas.py:74-100 | the endpoint over the store answers exactly `PorCodigoBarras` |
| Revistas.PorEdicaoFound | routers/revistas.py:113-132 | a success is exactly the matching entries, at least one, in catalog order, each presentable |
| Revistas.PorEdicaoErrors | routers/revistas.py:110-130 | no match is an error, and every error is 500 |
| Revistas.ObterRevistaPorEdicao | routers/revistas.py:102-132 | the endpoint over the store answers exactly `PorEdicao` |
| Busca.Caught | routers/revista.py:59-60 | a result the body returns passes through unchanged, and every error the body raises, a 404 included, becomes a 500 |
| Busca.NotFoundBecomes500 | routers/revista.py:30-60 | the body does raise 404 for an empty table, yet the caller never sees a 404, only 500 |
| Busca.PorNomeFails | routers/revista.py:27-60 | the search fails exactly when the table is unreadable or empty, or nothing scores at least 80 |
| Busca.PorNomeFound | routers/revista.py:33-57 | a success answers the accepted entries, at least one |
| Busca.HitsInOrder | routers/revista.py:33-52 | the accepted entries keep catalog order |
| Busca.HitsExactly | routers/revista.py:35-41 | an entry is accepted exactly when its raw-string score is at least 80 |
| Busca.RawHitIsCatalogHit | routers/revista.py:35-41 | on lower-case trimmed strings, an entry this search accepts is also accepted by the catalog name search |
| Busca.Consultar | routers/revista.py:28-57 | the body of the `try` over the store answers exactly `Attempt` |
| Busca.ObterRevistasPorNomeOuApelido | routers/revista.py:21-60 | the endpoint over the store answers exactly `PorNome` |
| Normalize.ConvText | services/extracao.py:101-112 | a string becomes None exactly when it is a null word in any case and padding; it is kept unchanged when it stays a string; the result is normal |
| Normalize.Conv | services/extracao.py:100-118 | the result is normal and keeps the shape: the same kind, length, keys and key order; other scalars are unchanged |
| Normalize.NormalIsFixed | services/extracao.py:100-118 | a value that is already normal is left unchanged |
| Normalize.ConvIdempotent | services/extracao.py:100-118 | normalising twice is normalising once |
| Normalize.ConvGet | services/extracao.py:115-116 | reading a key of a normalised object is normalising the value read |
| Normalize.ConvDigitString | services/extracao.py:106-107 | "12" becomes the integer 12 |
| Normalize.ConvNullWord | services/extracao.py:102-104 | " NULL " becomes None |
| Normalize.ConvPaddedNumber | services/extracao.py:106-110 | " 12" fails `isdigit` and becomes a float |
| Normalize.ConvDecimalComma | services/extracao.py:109-112 | "12,5" is no float literal and stays a string |
| Normalize.ConvSpecialWords | services/extracao.py:109-110 | "nan", "inf" and "infinity" in any letter case fail `isdigit` and become floats |
| Normalize.ConvExponent | services/extracao.py:109-110 | "<digits>e<digits>" becomes a float |
| Normalize.ConvPoint | services/extracao.py:109-110 | "<digits>.<digits>" becomes a float |
| Normalize.CleanResponse | services/extracao.py:121 | the cleaned answer is stripped and no longer than the answer |
| Normalize.CleanKeepsObject | services/extracao.py:121 | a bare JSON object reaches the decoder untouched |
| Normalize.CleanDropsLabel | services/extracao.py:121 | a leading "json" label in any letter case is dropped |
| Normalize.ParseResponse | services/extracao.py:120-130 | success exactly when the cleaned answer decodes to an object with both required keys, and then it is the normalised object; an undecodable answer is the invalid-JSON error |
| Normalize.ProcessPdf | services/extracao_nota_entrega.py:123-134 | an empty text fails before the model; success exactly when the model answers and its stripped answer parses, giving that normalised object |
| OcrTexto.Slice | services/ocr_pra_json.py:60 | list slicing: the sub-list for ordered bounds, empty when the start is not before the end |
| OcrTexto.NoSectionWhenUnmarked | services/ocr_pra_json.py:56-62 | `[]` comes back exactly when no line opens the section or no line closes it |
| OcrTexto.SectionAfterHeader | services/ocr_pra_json.py:57-64 | with a header line after the opening line, the section is the lines after the header up to the first closing line |
| OcrTexto.HeaderOffsetAt | services/ocr_pra_json.py:59 | the header offset counts the lines from the opening line to the first header line |
| OcrTexto.SectionWithoutHeader | services/ocr_pra_json.py:59-60 | with no header line, the section starts right after the opening line |
| OcrTexto.EndBeforeSectionIsEmpty | services/ocr_pra_json.py:57-64 | a closing line at or before the opening line gives "" and not `[]` |
| OcrTexto.FencedJsonIsFirstBlock | services/ocr_pra_json.py:87-90 | the block taken is the first json fence's, up to the nearest closing fence |
| OcrTexto.NoFenceWithoutBacktick | services/ocr_pra_json.py:87-88 | no fence starts where there is no backtick |
| OcrTexto.FencedBodyRoundTrip | services/ocr_pra_json.py:85-90 | wrapping a backtick-free body in a json fence gives the body back, stripped |
| OcrTexto.FenceAfterPlainText | services/ocr_pra_json.py:87-88 | past backtick-free text, the first fence found is the one that follows it |
| OcrTexto.SixBackticksRaise | services/ocr_pra_json.py:92-96 | without a json block, six backticks make the fallback match, and reading its missing group raises |
| OcrTexto.UnfencedAnswerIsStripped | services/ocr_pra_json.py:97-98 | an answer with no fence comes back stripped |
| Relatorios.FaturamentoNull | routers/relatorios.py:27-29 | the revenue is missing exactly when some amount is null, which makes the addition raise |
| Relatorios.FaturamentoAppend | routers/relatorios.py:28-29 | revenue adds up over a split of the rows |
| Relatorios.FaturamentoAborts | routers/relatorios.py:28-29 | once a prefix has met a null amount, the whole revenue is missing |
| Relatorios.SomarFaturamento | routers/relatorios.py:25-30 | the accumulation loop computes exactly the revenue |
| Relatorios.Ticket | routers/relatorios.py:39-41 | 0 without sales; otherwise the ticket times the number of sales is the revenue |
| Relatorios.NomeDe | routers/relatorios.py:46-52 | the name a row is counted under is never empty |
| Relatorios.NomeDeFirstTruthy | routers/relatorios.py:46-52 | the name is the first truthy candidate, and the fallback only when there is none |
| Relatorios.BumpWellFormed | routers/relatorios.py:55 | bumping a name keeps the keys distinct and in step with the totals |
| Relatorios.AgregadoWellFormed | routers/relatorios.py:43-55 | the ranking dictionary is well formed |
| Relatorios.AgregadoKeys | routers/relatorios.py:43-55 | there is a key for exactly the names some row is counted under |
| Relatorios.AgregadoTotals | routers/relatorios.py:43-55 | each key's total is the sum of the quantities of its rows |
| Relatorios.AgregadoSums | routers/relatorios.py:43-55 | both of the above together |
| Relatorios.AgregadoFirstAppearance | routers/relatorios.py:43-55 | the keys are in the order in which the names first appear |
| Relatorios.AgregadoStops | routers/relatorios.py:54-55 | a null quantity anywhere leaves the ranking missing |
| Relatorios.AgregadoAborts | routers/relatorios.py:54-55 | once a prefix has met a null quantity, the whole ranking is missing |
| Relatorios.Agregar | routers/relatorios.py:43-55 | the ranking loop computes exactly the aggregated dictionary |
| Relatorios.InsertPos | routers/relatorios.py:57 | an entry goes after every entry with a total at least its own |
| Relatorios.SortDescSorted | routers/relatorios.py:57 | the sort orders by non-increasing total and only rearranges |
| Relatorios.SortDescStable | routers/relatorios.py:57 | the sort is stable: entries with equal totals keep their order |
| Relatorios.Top | routers/relatorios.py:58 | `[:10]` is a prefix of at most ten entries, all of them when fewer |
| Relatorios.MaisVendidosGuarantees | routers/relatorios.py:57-58 | ten names when there are at least ten, else all; by non-increasing total, each with its own total; no name left out has a larger total than one kept; the kept entries of a tied total are the first of that total in key order |
| Relatorios.LeftOutSellLess | routers/relatorios.py:57-58 | no name cut by `[:10]` has a larger total than one kept |
| Relatorios.TiesKeepKeyOrder | routers/relatorios.py:57-58 | within one total, the kept entries are a prefix of that total's entries in key order |
| Relatorios.DashboardToday | routers/relatorios.py:21-41 | the number of sales is the row count, the revenue their sum, and the ticket times the count gives the revenue back; the weekly rows are passed on as read |
| Relatorios.DashboardBestSellers | routers/relatorios.py:43-58 | ten best sellers when at least ten names are counted, else all; by non-increasing total, each total the sum of its name's quantities; no name left out sold more than one kept; ties in the order the names first appear |
| Relatorios.DashboardFails | routers/relatorios.py:18-77 | the dashboard fails exactly when one of its three views cannot be read, an amount is null or a quantity is null |
| Relatorios.PegarDashboardGeral | routers/relatorios.py:12-77 | the two loops, the sort and the cut compute exactly `Dashboard`, the weekly rows passed through |
| Relatorios.Kpi | routers/relatorios.py:118-122 | the default for an empty view or a missing column; otherwise the first row's value, a null included |
| Relatorios.KpiGuarantees | routers/relatorios.py:147-149 | the answer is the first row's column, a null included, or the default when the column is missing; later rows never count, and the answer is never "absent" |
| Relatorios.KpiEmptyView | routers/relatorios.py:199-203 | an empty view answers 0, or None for the next deadline |
| Relatorios.AlertasAreDatedRows | routers/relatorios.py:397-416 | the alerts are the rows with a deadline, in query order; an error exactly when one of those deadlines does not parse |
| Relatorios.AlertasDaysLeft | routers/relatorios.py:404-405 | each alert's days left is its deadline minus today |
| Relatorios.AlertasErrIs500 | routers/relatorios.py:404 | an unparsable deadline ends the request in a 500 |
| Relatorios.AlertasAborts | routers/relatorios.py:399-404 | once a row has raised, the whole list raises |
| Relatorios.ListarAlertasDevolucoes | routers/relatorios.py:377-416 | a failed query is a 500; otherwise the loop computes exactly `Alertas` |

## Where the code and its description differ

The model follows the code in each of these cases.

- **Fuzzy matching takes the first acceptable entry.** It takes the first entry scoring at least 95, not the best-scoring one (`Entregas.FirstNotBest`).
- **The fuzzy router does not clamp quantities.** A negative quantity lowers stock (`Entregas.NegativeQuantityLowersStock`). Only the exact-key router clamps at 0.
- **The fuzzy router can create the same magazine twice.** A new magazine that appears twice in one note creates two rows (`Entregas.SecondCopyDuplicates`). The exact-key router updates the row it just created (`Entradas.SecondCopyUpdates`).
- **Store failures do not always stay per-item.** They abort the rest of the note in the fuzzy and return routers (`Entregas.FailureAborts`, `Devolucoes.FailureAborts`). Only the exact-key router logs and continues (`Entradas.StoreFailureIsLogged`, `Entradas.StoreFailuresContinue`).
- **Return slips are not unique per user and deadline.** The return router checks for a duplicate with the locally read deadline but inserts the deadline the model extracted. When the two differ, two open slips for the same user and deadline can exist. `Devolucoes.DevolucaoGuarantees` states the check as written.
- **The fuzzy router answers 500 on extraction failure.** It catches only `json.JSONDecodeError` around the extraction, while the extraction service raises `ValueError`. Every extraction failure therefore escapes as a 500 (`Entregas.ExtractionFailureIs500`).
- **The `/busca` router never answers 404.** It raises its 404s inside a `try` whose `except Exception` turns them into 500 (`Busca.NotFoundBecomes500`).
- **Null barcodes and editions compare as text.** The barcode search compares `str(None)`, that is "None", so a null barcode is found by the query "None". The exact-key delivery router keys a catalog row with a null edition as "None", so that row is never matched. The return router keys it as "0".

## Left out

- **Database, network, storage and authentication.**
  - The Supabase client becomes the in-memory `Catalog.Store`. A query's row order is table order.
  - Each store call's failure is a parameter.
  - Signed URLs, blob storage (`upload_image`, `routers/chamadas.py`) and token validation (`services/auth.py`, `servicos/auth.py`, `funcoes.py`) are not modelled.
- **PDF text extraction, OCR, the language-model calls and their prompts.** They become parameters: the text, the model's answer (or None), the decoder. So do `extrair_dados_devolucao_local` and the PDF readers; `extrair_valor` and `remover_acentos` are not modelled.
- **rapidfuzz's `token_sort_ratio`.** It is a parameter `sim` returning 0 to 100; the metric itself is not modelled.
- **Floating point.**
  - Prices are only checked to read as a float; their values are not kept.
  - `float(v)` in the normalisation keeps the literal text. Reading it follows Python's literal grammar (sign, digits with single underscores, a point, an exponent, "inf", "infinity" and "nan" in any case) and gives its exact decimal value.
  - Rounding to binary is not modelled, so a literal beyond the double range does not become an infinity or zero: `int()` of "1e400" is an integer here where Python raises OverflowError.
  - The average ticket is a real number, not a binary float.
  - Amounts in the reports (`valor_total`, and so the revenue) and sold quantities are integers, as in cents; a fractional amount is not represented.
  - `str()` of floats, lists and dicts is approximated.
- **Dates.** `datetime.strptime` and `date.fromisoformat` are a `parseDate` parameter. Dates are day numbers, and "today" is a parameter.
- **Python text operations are simplified.**
  - `strip` and `isspace` cover ASCII whitespace only, and `lower` covers ASCII letters only.
  - `splitlines` breaks on "\n" only.
  - `isdigit` accepts ASCII digits only.
- **The SQL side of some reports.**
  - The alert query's filters (status, owner, date window) and its ordering are left to the database; only the loop over its rows is modelled.
  - The rows of the dashboard's weekly performance view are passed through unchanged; their contents are not modelled, only whether the view could be read.
- **Endpoints outside the model.** `pegar_tudo`, `pegar_hoje`, the chart endpoints, the sales router (`routers/vendas.py`), the command-line scripts (`cadastro_login.py`, `teste.py`) and `main.py` are not part of this model. The 30-day KPIs have the same shape as `Relatorios.Contador` and are not modelled separately.
- **Response models.** Of `models/revista_model.py`, only the need for a non-null edition and barcode to build a `RevistaResposta` is modelled (`Revistas.Presentable`); other field validation is not. The `/busca` search (`Busca`) builds no response model at all.
- **The `/busca` router as a module.** `routers/revista.py:4` imports `Revista` from `models/revista_model.py`, which defines only `RevistaResposta` and `CadastrarCodigoRevista`, so the module fails at import; `main.py` does not mount it either. It also reads the table "Revistas", capitalised, where every other router reads "revistas"; `Busca` treats both names as the same catalog. `Busca` models its functions as written.
- **Null names in the catalog.** A catalog row's name is a string, so a row with a null `nome` is not representable. For such a row:
  - the exact-key router keys it as "none", so an item named "None" matches it (`routers/entradas.py:45-48`);
  - the fuzzy router's name normalisation raises AttributeError on it (`routers/entregas.py:70-72`), which is no `ValueError` or `TypeError`, so the first item whose scan reaches that row ends the note in a 500;
  - the searches fail building a `RevistaResposta`, whose `nome` is a `str`.
- **Null stock in the catalog.** A catalog row's stock is an integer, so a row with a null `qtd_estoque` is not representable. Both delivery routers read a null stock as 0 (`routers/entradas.py:93`, `routers/entregas.py:92`), so a matched item's quantity would become the row's stock.
- **The legacy row's edition.** The return router's legacy insert (`routers/devolucoes.py:68`) stores the raw `numero_edicao` value; the model stores the integer `int()` read from it, so a textual edition such as "07" is stored as 7.
- **Identifiers.** All tables draw their ids from one generator that starts at 1, so every id is truthy; the database's own sequences are not modelled.
- **Logging.** The `print` calls that log skipped items are not modelled.
