# Drug-invoice and regulator price pipeline — Dafny model

The modelled system takes Brazilian electronic invoices (NFe) for medicines and links each invoice item to a product of the ANVISA/CMED regulator base, then to the ceiling price in force on the invoice's emission date. Around that core it builds and cleans both sides:

- **Regulator base.** The monthly CMED price lists become validity intervals (`aa.py`), and consecutive identical intervals are merged. Product names, active ingredients, laboratories, therapeutic classes and groups, GGREM and EAN codes are cleaned. Presentation texts are normalised and their quantities extracted.
- **Invoice side.** Descriptions are cleaned, and product names are extracted and refined. Items are matched by barcode and registration keys (an EAN1, EAN2, EAN3, registration cascade), then by a manual base, a unique-presentation join and a weighted fuzzy matcher. The flows are separated, finalised and consolidated into one schema. Expiry categories, over-price classes, government sphere, units and partition ids are derived.

Each Python module of the core is one Dafny module. Tables are `Frame.Table` values: a column list plus rows that map columns to cells, where `Null` is pandas' missing value. Operations are pure functions. Exceptions are `Result` errors named after the Python exception. Dictionaries, scorers, hashes, accent stripping, number and date parsers are function parameters.

Where the repository's written description and its code disagree, the model follows the code:

- **Unique presentation without a presentation column.** A product qualifies when exactly one row names it (`groupby(...).size() == 1`). It is not true that every product counts as unique (`ApresentacaoUnica.QualificaSemColuna`).
- **Default end of a last validity interval.** A start month of at most 3 gives 15 April of the same year. Later months give 15 April of the next year (`aa.py:276-278`).
- **Block merging in `unificacao_vigencias.py`.** The `first`/`last` aggregations skip missing values. So each merged column holds the first or last non-missing value of its block.
- **Five functions named after source functions.** These model the code as written:
  - `Vigencias.ProcessarVigencias`
  - `PrecosVigentes.JuntarPrecosVigentes`
  - `MatchingManual.Lookup`
  - `Vencimento.VencDe`
  - `Produto.CorrigirESegmentar`

  Each one's corrected variant is a separate member, listed under "## Findings".

Each as-written member has its own all-inputs partner:

| as-written member | partner |
|---|---|
| ProcessarVigencias | `ProdutosPreservadosComoEscrito`, `FimAntesDoInicio`, `CorrigidaSoMudaFins` |
| JuntarPrecosVigentes | `ComoEscritoPerdePreco` against the corrected `PrecoDoItemVigente` |
| Lookup | `LookupBusca`, `LookupChavesUnicas`, `PrepararLookupManual` |
| VencDe | `VencDeCategoria`, `CategorizarDifereSoEm365` |
| CorrigirESegmentar | `LimparFinalSemMais`, `MaisInicialSobra` |

## Model

| member | source | states |
|---|---|---|
| MatchingHibrido.LimparTexto | pipelines/nfe/src/nfe_etapa15_matching_hibrido.py:108-112 | "" for a non-string; otherwise only word and space characters, upper case, no whitespace at either end |
| MatchingHibrido.LimparIdempotente | pipelines/nfe/src/nfe_etapa15_matching_hibrido.py:108-112 | cleaning cleaned text changes nothing |
| MatchingHibrido.SemStopwords | pipelines/nfe/src/nfe_etapa15_matching_hibrido.py:142-146 | "" for a non-string; otherwise single-spaced text with no whitespace at either end |
| MatchingHibrido.StopwordsPalavras | pipelines/nfe/src/nfe_etapa15_matching_hibrido.py:142-146 | the words of the result are exactly the non-stopword words of the input, in order |
| MatchingHibrido.StopwordsIdempotente | pipelines/nfe/src/nfe_etapa15_matching_hibrido.py:142-146 | removing stopwords twice removes them once |
| MatchingHibrido.OrdemSinonimos | pipelines/nfe/src/nfe_etapa15_matching_hibrido.py:132 | the keys are applied each exactly once (a permutation), longest first |
| MatchingHibrido.OrdemSinonimosEstavel | pipelines/nfe/src/nfe_etapa15_matching_hibrido.py:132 | keys of equal length are applied in dictionary order |
| MatchingHibrido.AplicarSinonimos | pipelines/nfe/src/nfe_etapa15_matching_hibrido.py:128-139 | "" for a non-string; an empty map leaves the text as it is |
| MatchingHibrido.SinonimosAusentes | pipelines/nfe/src/nfe_etapa15_matching_hibrido.py:128-139 | text where no key occurs as a whole word (ignoring case) is returned unchanged |
| MatchingHibrido.IndiceExato | pipelines/nfe/src/nfe_etapa15_matching_hibrido.py:149-157 | row i is listed under word w iff row i is a string with w among its distinct words longer than two characters; postings strictly ascend (each row once); a word is a key iff some row holds it |
| MatchingHibrido.PontuacaoNumerica | pipelines/nfe/src/nfe_etapa15_matching_hibrido.py:340-346 | the score is 0 or 1; 1 when both are 0; 0 when exactly one is 0; for positive values 1 iff abs(a-b) <= tol * max(a, b) |
| MatchingHibrido.PontuacaoSimetrica | pipelines/nfe/src/nfe_etapa15_matching_hibrido.py:340-346 | the score is symmetric in the two values |
| MatchingHibrido.NotaNumerica | pipelines/nfe/src/nfe_etapa15_matching_hibrido.py:419-433 | the numeric score lies in [0, 1] and is 0.5 when the input quantifies no field |
| MatchingHibrido.NotaNumericaPlena | pipelines/nfe/src/nfe_etapa15_matching_hibrido.py:419-433 | with some quantified field, the numeric score is 1 iff every quantified field is within tolerance |
| MatchingHibrido.Total | pipelines/nfe/src/nfe_etapa15_matching_hibrido.py:385-440 | with scorers in [0, 100], the total lies in [0, 1.15] |
| MatchingHibrido.Filtrados | pipelines/nfe/src/nfe_etapa15_matching_hibrido.py:370-376 | the kept candidates are master rows of the pool passing the Jaccard filter, and every listed row that passes is kept |
| MatchingHibrido.FiltradosExatos | pipelines/nfe/src/nfe_etapa15_matching_hibrido.py:370-376 | with the pool listed in its iteration order, a row is kept iff it is in the pool and its Jaccard similarity exceeds 0.175 |
| MatchingHibrido.PrimeiroMaximo | pipelines/nfe/src/nfe_etapa15_matching_hibrido.py:446 | idxmax: a maximum, and the first one |
| MatchingHibrido.MelhorMatch | pipelines/nfe/src/nfe_etapa15_matching_hibrido.py:349-447 | each early exit (empty query, no pooled candidate, none passes Jaccard) happens exactly under its condition with score 0 and no index; a match names a pooled master row passing the filter with its total as score |
| MatchingHibrido.MelhorMatchMaximo | pipelines/nfe/src/nfe_etapa15_matching_hibrido.py:360-447 | the winner's score is at least every filtered candidate's, and strictly above every candidate listed before it in the candidate set's iteration order (`list(candidate_indices)` then `idxmax`), so ties go to the first listed |
| MatchingHibrido.PoolUniao | pipelines/nfe/src/nfe_etapa15_matching_hibrido.py:360-366 | the pool is exactly the union of the query words' postings in both indexes |
| MatchingHibrido.ExecutarMatching | pipelines/nfe/src/nfe_etapa15_matching_hibrido.py:454-519 | one output row per input row, in input order |
| MatchingHibrido.DifusaoCorreta | pipelines/nfe/src/nfe_etapa15_matching_hibrido.py:462-497 | matching each distinct key combination once and joining back gives every row the result of matching it alone |
| MatchingHibrido.CasadoDoMestre | pipelines/nfe/src/nfe_etapa15_matching_hibrido.py:506-519 | a matched row carries the master row its index names |
| Separacao.SepararFluxos | pipelines/nfe/src/nfe_etapa09_separacao.py:70-76 | no flows without a PRODUTO column; otherwise every complete row has a product and every working row has none, both with the input's columns |
| Separacao.SepararParticiona | pipelines/nfe/src/nfe_etapa09_separacao.py:75-76 | the two flows together hold every input row exactly as often as the input does, each flow in input order |
| Separacao.SepararComoEscrito | pipelines/nfe/src/nfe_etapa09_separacao.py:70-90 | as written: raises ZeroDivisionError exactly for a frame with a PRODUTO column and no rows; otherwise agrees with SepararFluxos |
| Separacao.SepararVazioFalha | pipelines/nfe/src/nfe_etapa09_separacao.py:79-86 | the empty frame with a PRODUTO column raises as written and yields two empty flows when corrected |
| Separacao.FiltrarNaoMedicinais | pipelines/nfe/src/nfe_etapa09_separacao.py:120-196 | a missing frame stays missing; an empty frame, a frame without the description column and two empty lists come back unchanged; the result keeps the columns and is an order-preserving subsequence |
| Separacao.FiltrarPassosReferencia | pipelines/nfe/src/nfe_etapa09_separacao.py:149-181 | the word pass followed by the term pass keeps exactly the rows whose description matches neither a listed whole word nor a listed term, ignoring case |
| Separacao.FiltrarReferencia | pipelines/nfe/src/nfe_etapa09_separacao.py:120-196 | on every path the result is the input restricted to the rows the reference mask keeps |
| Separacao.RelatorioFiltragem | pipelines/nfe/src/nfe_etapa09_separacao.py:162-185 | a report exists iff filtering runs; the rows removed by the two passes add up to the rows before minus the rows after |
| Separacao.ProcessarSeparacao | pipelines/nfe/src/nfe_etapa09_separacao.py:278-305 | no result iff the separation fails; the complete flow is passed on as separated, the working flow as a filtered subsequence |
| Separacao.ProcessarReferencia | pipelines/nfe/src/nfe_etapa09_separacao.py:278-305 | the working output is exactly the product-less rows that the reference mask keeps |
| Finalizacao.ExtrairAtributos | pipelines/nfe/src/nfe_etapa16_finalizacao_pipeline.py:104-124 | the side table has exactly the listed columns the frame has, in list order; no more rows than the input; every kept row has some non-key attribute |
| Finalizacao.ExtrairOrigem | pipelines/nfe/src/nfe_etapa16_finalizacao_pipeline.py:111-117 | the kept rows are, in input order, projections of input rows onto the existing columns |
| Finalizacao.ExtrairMantem | pipelines/nfe/src/nfe_etapa16_finalizacao_pipeline.py:114-117 | a row is dropped only when all its non-key attributes are missing |
| Finalizacao.ExtrairAtributosIA | pipelines/nfe/src/nfe_etapa16_finalizacao_pipeline.py:42-108 | with the stage's list: the side table's columns are the listed IA columns the frame has |
| Finalizacao.LimparPrincipal | pipelines/nfe/src/nfe_etapa16_finalizacao_pipeline.py:138-148 | exactly the present work columns are removed; the other columns keep their order and every cell |
| Finalizacao.LimparSemTrabalho | pipelines/nfe/src/nfe_etapa16_finalizacao_pipeline.py:143-144 | a frame without work columns is returned unchanged |
| Finalizacao.LimparIdempotente | pipelines/nfe/src/nfe_etapa16_finalizacao_pipeline.py:138-148 | cleaning twice cleans once |
| Finalizacao.ParticionarResultados | pipelines/nfe/src/nfe_etapa16_finalizacao_pipeline.py:162-183 | without PRODUTO: nothing matched, all rows remain; otherwise matched rows have a product and remaining rows have none |
| Finalizacao.ParticionarParticiona | pipelines/nfe/src/nfe_etapa16_finalizacao_pipeline.py:167-170 | the two parts together are the input as a multiset, each in input order |
| Finalizacao.Finalizar | pipelines/nfe/src/nfe_etapa16_finalizacao_pipeline.py:54-67 | the parts' sizes add up to the input's; no work column reaches either part (the same file's lines 307-329 too) |
| Finalizacao.FinalizarComoEscrito | pipelines/nfe/src/nfe_etapa16_finalizacao_pipeline.py:258-337 | as written: an empty frame reports failure (the report divides by zero inside the handler); otherwise agrees with Finalizar |
| Frame.SplitNotNullPartition | pipelines/nfe/src/nfe_etapa09_separacao.py:75-76 | notna and isna masks split a frame into parts that together are the input as a multiset |
| ConsolidacaoFinal.FormatarSchema | pipelines/nfe/src/nfe_consolidacao_final.py:158-185 | the result has exactly the schema's columns in schema order and the input's row count; a cell of a column the input has is kept, a column it lacks reads as missing |
| ConsolidacaoFinal.FormatarConforme | pipelines/nfe/src/nfe_consolidacao_final.py:158-185 | a frame already in the schema comes back unchanged |
| ConsolidacaoFinal.FormatarIdempotente | pipelines/nfe/src/nfe_consolidacao_final.py:158-185 | aligning twice aligns once |
| ConsolidacaoFinal.AplicarMapeamento | pipelines/nfe/src/nfe_consolidacao_final.py:188-212 | present keys mapped to None disappear; every other column survives under its new name with every cell; the row count stays |
| ConsolidacaoFinal.MapeamentoOrigem | pipelines/nfe/src/nfe_consolidacao_final.py:188-212 | every output column is a kept input column under its new name |
| ConsolidacaoFinal.MapeamentoNeutro | pipelines/nfe/src/nfe_consolidacao_final.py:62-66 | a map whose present keys keep their names (as the unique-presentation map does) leaves the frame unchanged (the same file's lines 188-212 too) |
| ConsolidacaoFinal.RemoverAcentosTexto | pipelines/nfe/src/nfe_consolidacao_final.py:215-220 | a missing cell stays missing; otherwise the result is text with no combining mark and a subsequence of the decomposition |
| ConsolidacaoFinal.AcentosSoMarcas | pipelines/nfe/src/nfe_consolidacao_final.py:215-220 | only combining marks are removed: a decomposition without them comes back whole |
| ConsolidacaoFinal.SemAcentoColuna | pipelines/nfe/src/nfe_consolidacao_final.py:225-227 | one present column loses its accents; every other cell and the shape stay |
| ConsolidacaoFinal.NormalizarSemAcentos | pipelines/nfe/src/nfe_consolidacao_final.py:223-228 | each listed present column loses its accents, unlisted columns keep every cell, columns and row count stay |
| ConsolidacaoFinal.ConcatTodosSchema | pipelines/nfe/src/nfe_consolidacao_final.py:312-316 | frames that share a schema concatenate into a frame with that schema |
| ConsolidacaoFinal.ConcatTodosLinha | pipelines/nfe/src/nfe_consolidacao_final.py:316 | row i of frame k is, cell by cell, the row at offset (rows of frames before k) + i of the concatenation |
| ConsolidacaoFinal.Consolidar | pipelines/nfe/src/nfe_consolidacao_final.py:299-320 | ValueError exactly for an empty list; otherwise as many rows as all frames together |
| ConsolidacaoFinal.ConsolidarLinha | pipelines/nfe/src/nfe_consolidacao_final.py:312-320 | every input row reappears at its offset with STATUS and TIPO DE PRODUTO unaccented and all other cells unchanged |
| ConsolidacaoFinal.ConsolidarComoEscrito | pipelines/nfe/src/nfe_consolidacao_final.py:299-333 | as written: fails exactly for an empty list or when all frames are empty (the summary divides by zero); otherwise agrees with Consolidar |
| ConsolidacaoFinal.Validas | pipelines/nfe/src/nfe_consolidacao_final.py:354-377 | every kept row has a municipality and an active ingredient and is an input row; invoice keys are distinct; the kept keys are exactly the keys of the valid input rows |
| ConsolidacaoFinal.LimparEValidar | pipelines/nfe/src/nfe_consolidacao_final.py:340-392 | KeyError exactly when a column it reads is missing; otherwise the columns stay and the rows are the cleaned ones |
| ConsolidacaoFinal.LimparPrimeiro | pipelines/nfe/src/nfe_consolidacao_final.py:373-377 | each kept row is the first valid row with its invoice key |
| ConsolidacaoFinal.LimparComoEscrito | pipelines/nfe/src/nfe_consolidacao_final.py:340-392 | as written: also fails on a frame without rows (the summary divides by zero); otherwise agrees with LimparEValidar |
| ConsolidacaoFinal.Alinhada | pipelines/nfe/src/nfe_consolidacao_final.py:249-290 | a loaded source yields one frame in the schema, a missing one none |
| ConsolidacaoFinal.Partes | pipelines/nfe/src/nfe_consolidacao_final.py:235-292 | every part is in the schema; no part exactly when no source loaded |
| ConsolidacaoFinal.ConsolidarELimpar | pipelines/nfe/src/nfe_consolidacao_final.py:433-507 | only KeyError can arise; the result is in the schema, holds only valid rows and one row per invoice key |
| ConsolidacaoFinal.ProcessarConsolidacao | pipelines/nfe/src/nfe_consolidacao_final.py:482-524 | ValueError exactly when no source loaded; a result is in the schema with valid rows and distinct invoice keys |
| ConsolidacaoFinal.ConsolidarELimparComoEscrito | pipelines/nfe/src/nfe_consolidacao_final.py:299-392 | as written: a result exactly when the corrected stage succeeds and the sources hold some row |
| ConsolidacaoFinal.ProcessarComoEscrito | pipelines/nfe/src/nfe_consolidacao_final.py:482-524 | as written: a result exactly when the corrected stage succeeds on sources holding some row, and then the same one |
| ConsolidacaoFinal.ProcessarVazioFalha | pipelines/nfe/src/nfe_consolidacao_final.py:326-331 | one empty source in a sufficient schema: failure as written, an empty frame when corrected |
| ConsolidacaoFinal.VazioConsolidar | pipelines/nfe/src/nfe_consolidacao_final.py:299-333 | one frame without rows consolidates to itself, and fails as written |
| Frame.UnionColsVazio | pipelines/nfe/src/nfe_consolidacao_final.py:316 | concatenating onto no columns gives the other frame's columns in order |
| Frame.UnionColsIgual | pipelines/nfe/src/nfe_consolidacao_final.py:316 | frames with the same columns concatenate without adding or reordering columns |
| GrupoTerapeutico.NormalizarSigla | grupo_terapeutico.py:34-45 | a value that is not text comes back unchanged; text comes back as text with no word ending in '0' |
| GrupoTerapeutico.ZerosFinaisSemZeroFinal | grupo_terapeutico.py:42-43 | after the zero removal no word ends in '0' |
| GrupoTerapeutico.ZerosFinaisNada | grupo_terapeutico.py:42-43 | a text with no word-ending zero is left as it is |
| GrupoTerapeutico.ZerosFinaisIdempotente | grupo_terapeutico.py:42-43 | removing word-ending zeros twice is removing them once |
| GrupoTerapeutico.PreencherSoZeros | grupo_terapeutico.py:39-40 | the padding only inserts '0': apart from zeros the text is unchanged |
| GrupoTerapeutico.ZerosFinaisSoZeros | grupo_terapeutico.py:42-43 | the zero removal only deletes '0': apart from zeros the text is unchanged |
| GrupoTerapeutico.NormalizarSoZeros | grupo_terapeutico.py:34-45 | normalisation changes the trimmed upper-cased code only in its zeros |
| GrupoTerapeutico.ExemploA02B4 | grupo_terapeutico.py:26-27 | "A02B4" normalises to "A02B04" |
| GrupoTerapeutico.ExemploN05A9 | grupo_terapeutico.py:28-29 | "N05A9" normalises to "N05A09" |
| GrupoTerapeutico.ExemploA03A0 | grupo_terapeutico.py:30-31 | "A03A0" normalises to "A03A" |
| GrupoTerapeutico.Dicionario | grupo_terapeutico.py:167-174 | the keys of the dictionary are exactly the keys of the pairs |
| GrupoTerapeutico.DicionarioUltimo | grupo_terapeutico.py:167-174 | a key maps to the value of its last pair |
| GrupoTerapeutico.ComClasse | grupo_terapeutico.py:156-163 | the accented class column is renamed to the plain name, cells moving with it; an error exactly when the frame has both names or neither |
| GrupoTerapeutico.Atribuir | grupo_terapeutico.py:163-182 | each row gets the adjusted class and group its normalised code maps to; every other cell stays |
| GrupoTerapeutico.MapearGrupos | grupo_terapeutico.py:163-223 | as Atribuir, and the helper column of normalised codes is gone |
| GrupoTerapeutico.ProcessarGrupos | grupo_terapeutico.py:156-223 | fails exactly when the class column cannot be found unambiguously; the result has neither the accented nor the helper column |
| GrupoTerapeutico.MapearUltimo | grupo_terapeutico.py:167-182 | a row whose code is a consolidated class gets the adjusted class and group of the last group row with that class |
| GrupoTerapeutico.MapearSemCorrespondencia | grupo_terapeutico.py:181-185 | a row whose code is no consolidated class gets missing values |
| Laboratorio.SAPontosSemPonto | src/modules/laboratorio.py:48-51 | once the dots are gone, the dotted SA pattern matches exactly where the whole word SA does |
| Laboratorio.LimparNome | src/modules/laboratorio.py:42-54 | the cleaned name is upper case, has no dot, single spaces between words and none at the ends |
| Laboratorio.LimparJaLimpo | src/modules/laboratorio.py:42-54 | a name already clean and free of the abbreviations is left as it is |
| Laboratorio.LimparMaiusculo | src/modules/laboratorio.py:44-45 | the cleaning depends only on the upper-cased text |
| Laboratorio.Backup | src/modules/laboratorio.py:32-34 | the backup of a text is its upper-cased text; anything else becomes missing |
| Laboratorio.LimparCelula | src/modules/laboratorio.py:42-55 | every cell, missing ones included, becomes clean text |
| Laboratorio.ProcessarLaboratorio | src/modules/laboratorio.py:27-66 | no LABORATORIO column: the frame is returned as it is; otherwise the backup is added only when absent, the column holds the cleaned names, and every other cell stays |
| Laboratorio.BackupUmaVez | src/modules/laboratorio.py:32-34 | a second run keeps the backup of the first |
| Laboratorio.AusenteViraNan | src/modules/laboratorio.py:42-44 | as written, a missing laboratory becomes the text "NAN" |
| Laboratorio.LimparCelulaCorrigida | src/modules/laboratorio.py:42-55 | corrected: a missing laboratory stays missing, and text is cleaned as before |
| ClassificacaoTerapeutica.Antes | pipelines/anvisa_base/src/modules/classificacao_terapeutica.py:50-95 | the code part is the whole text without a separator, otherwise the text before the first " - ", which holds none |
| ClassificacaoTerapeutica.Depois | pipelines/anvisa_base/src/modules/classificacao_terapeutica.py:51 | the description part is empty without a separator; otherwise code part, separator and description part give back the text |
| ClassificacaoTerapeutica.Codigo | pipelines/anvisa_base/src/modules/classificacao_terapeutica.py:53-67 | the standardised code has no whitespace at either end |
| ClassificacaoTerapeutica.CodigoFixo | pipelines/anvisa_base/src/modules/classificacao_terapeutica.py:53-67 | a stripped code whose group numbers all have two digits and with no "00" ending a word is left as it is |
| ClassificacaoTerapeutica.CodigoCurto | pipelines/anvisa_base/src/modules/classificacao_terapeutica.py:56-66 | a lone group letter and non-zero digit gets its leading zero ("N5" becomes "N05") |
| ClassificacaoTerapeutica.Descricao | pipelines/anvisa_base/src/modules/classificacao_terapeutica.py:69-73 | the cleaned description holds only ASCII capitals, digits and single inner spaces |
| ClassificacaoTerapeutica.Padronizar | pipelines/anvisa_base/src/modules/classificacao_terapeutica.py:44-79 | a missing class stays missing and anything else becomes text |
| ClassificacaoTerapeutica.PadronizarSemSeparador | pipelines/anvisa_base/src/modules/classificacao_terapeutica.py:50-79 | a class without a separator becomes its standardised code alone |
| ClassificacaoTerapeutica.GrupoPorCodigo | pipelines/anvisa_base/src/modules/classificacao_terapeutica.py:100-111 | the psychoneurological group exactly for N03-N07, the anaesthetic one exactly for N01-N02, otherwise the group of the first letter |
| ClassificacaoTerapeutica.GrupoNervoso | pipelines/anvisa_base/src/modules/classificacao_terapeutica.py:104-111 | a nervous-system code outside N01-N07 gets 'VÁRIOS'; a code not starting with N gets the group of its letter |
| ClassificacaoTerapeutica.GrupoAnatomico | pipelines/anvisa_base/src/modules/classificacao_terapeutica.py:92-111 | 'VÁRIOS' for a cell that is not text or has no separator; otherwise the group of the stripped code part |
| ClassificacaoTerapeutica.GrupoDaClasseMontada | pipelines/anvisa_base/src/modules/classificacao_terapeutica.py:76-95 | an assembled class with a description gets the group of its code: the group lookup splits where the assembly joined |
| ClassificacaoTerapeutica.CriarBackup | pipelines/anvisa_base/src/modules/classificacao_terapeutica.py:26-32 | the backup is copied from the class column only when absent; a KeyError exactly when both columns are missing |
| ClassificacaoTerapeutica.Classificar | pipelines/anvisa_base/src/modules/classificacao_terapeutica.py:133-164 | the class is recomputed from the backup and the group from the recomputed class; every other cell stays |
| ClassificacaoTerapeutica.ProcessarClassificacao | pipelines/anvisa_base/src/modules/classificacao_terapeutica.py:195-205 | fails exactly when the frame has neither class column; the result has the backup, the class and the group |
| ClassificacaoTerapeutica.ReexecucaoEstavel | pipelines/anvisa_base/src/modules/classificacao_terapeutica.py:26-31 | re-running the stage on its own output changes nothing (the same file's lines 128-135 too) |
| LimpezaDados.CodigoGgrem | pipelines/anvisa_base/src/modules/limpeza_dados.py:27-34 | a GGREM cell is missing exactly when its stripped text is 'nan', 'None' or empty; otherwise it is digits only |
| LimpezaDados.CodigoEan | pipelines/anvisa_base/src/modules/limpeza_dados.py:55-62 | an EAN cell is always digits-only text, empty for the placeholders |
| LimpezaDados.EanSemMarcador | pipelines/anvisa_base/src/modules/limpeza_dados.py:59-61 | the EAN placeholder replacement is redundant: the digit filter alone gives the same cell |
| LimpezaDados.DigitosInteiro | pipelines/anvisa_base/src/modules/limpeza_dados.py:32-61 | digits, with or without a trailing ".0", clean to themselves |
| LimpezaDados.GgremInteiro | pipelines/anvisa_base/src/modules/limpeza_dados.py:27-34 | a code read as a float ("12345.0") or as digits gives back the digits |
| LimpezaDados.GgremIdempotente | pipelines/anvisa_base/src/modules/limpeza_dados.py:27-34 | a second cleanup of the GGREM code changes nothing, except that empty text left by the first becomes missing |
| LimpezaDados.EanIdempotente | pipelines/anvisa_base/src/modules/limpeza_dados.py:55-62 | a second cleanup of a barcode changes nothing |
| LimpezaDados.PadronizarGgrem | pipelines/anvisa_base/src/modules/limpeza_dados.py:26-39 | without the GGREM column the frame is returned as it is; otherwise its cells are cleaned and nothing else changes |
| LimpezaDados.PadronizarColunas | pipelines/anvisa_base/src/modules/limpeza_dados.py:53-64 | each listed column the frame has is cleaned, a missing one skipped, every other cell kept |
| LimpezaDados.PadronizarEan | pipelines/anvisa_base/src/modules/limpeza_dados.py:53-67 | the EAN 1, EAN 2 and EAN 3 columns (config.py line 36) the frame has are cleaned; every other cell stays |
| LimpezaDados.EanEstavel | pipelines/anvisa_base/src/modules/limpeza_dados.py:53-67 | cleaning the barcodes twice cleans them once |
| LimpezaDados.LimparPadronizar | pipelines/anvisa_base/src/modules/limpeza_dados.py:84-90 | same columns; GGREM and EAN cells cleaned, every other cell unchanged |
| NfeLimpeza.EspacarRe | src/nfe_limpeza.py:153-228 | one `(A)(B)` spacing pattern, although each match consumes both characters, equals the reference spacing at every boundary when the classes are disjoint |
| NfeLimpeza.EspacarSemFronteira | src/nfe_limpeza.py:153-162 | after a spacing pass no character of the first class is directly followed by one of the second |
| NfeLimpeza.EspacarSoEspacos | src/nfe_limpeza.py:153-162 | a spacing pass only inserts spaces: without spaces the text is unchanged |
| NfeLimpeza.EspacarFixo | src/nfe_limpeza.py:153-162 | text without a boundary between the two classes is left as it is |
| NfeLimpeza.EspacamentoSeparado | src/nfe_limpeza.py:153-228 | after the eight patterns no digit, letter or symbol touches one of another class, and the last two patterns never change anything |
| NfeLimpeza.SemEspeciais | src/nfe_limpeza.py:164-237 | after step 3 no special character is left and the whitespace is normalised |
| NfeLimpeza.SemEspeciaisFixo | src/nfe_limpeza.py:164-237 | normalised text without special characters is left as it is |
| NfeLimpeza.MarcaN | src/nfe_limpeza.py:164 | "(N)" is removed with its letter, while a lone N stays |
| NfeLimpeza.RemoverNumeroInicial | src/nfe_limpeza.py:241 | removing the leading number keeps normalised text normalised |
| NfeLimpeza.NumeroInicialPalavra | src/nfe_limpeza.py:241 | on normalised text the leading-number pattern removes exactly the first word, and does so if and only if that word is '+' signs then digits and more words follow |
| NfeLimpeza.EspacoNumLetra | src/nfe_limpeza.py:178-182 | text leaves with no digit directly followed by a letter and with only spaces added; anything else is returned unchanged |
| NfeLimpeza.EspacoLetraNum | src/nfe_limpeza.py:185-189 | text leaves with no letter directly followed by a digit and with only spaces added; anything else is returned unchanged |
| NfeLimpeza.EspacosFixos | src/nfe_limpeza.py:178-189 | already spaced text is left as it is by both helpers |
| NfeLimpeza.EspacosSeparados | src/nfe_limpeza.py:250-251 | after both helpers neither a digit/letter nor a letter/digit boundary remains |
| NfeLimpeza.PrimeiraPalavra | src/nfe_limpeza.py:171-198 | the words of the result are the words of the stripped text, the first one dropped exactly when its upper case is in the unwanted set |
| NfeLimpeza.PrimeiraPalavraFixa | src/nfe_limpeza.py:192-198 | normalised text whose first word is wanted comes back unchanged |
| NfeLimpeza.LimparTexto | src/nfe_limpeza.py:222-259 | every cleaned description is normalised, upper-case text |
| NfeLimpeza.Truncar | src/nfe_limpeza.py:273 | truncation toward zero: the integer lies within one of the value, on the side of zero |
| NfeLimpeza.QuantidadeLimpa | src/nfe_limpeza.py:266-274 | an unparseable quantity becomes 0; a parsed one is truncated toward zero |
| NfeLimpeza.QuantidadeVirgula | src/nfe_limpeza.py:270-271 | a decimal comma and a decimal point give the same quantity |
| NfeLimpeza.LimparDescricoes | src/nfe_limpeza.py:205-280 | KeyError exactly when the description column is missing; otherwise same columns, every description cleaned to normalised upper case, quantities made whole when the column exists, every other cell kept |
| Particionamento.IdHash | pipelines/nfe/src/nfe_etapa22_particionamento.py:100-112 | the id is at most 16 characters, a prefix of the digest of the four bar-joined key fields, and holds no '_' when the digest has none |
| Particionamento.IdEstavel | pipelines/nfe/src/nfe_etapa22_particionamento.py:100-112 | rows agreeing on the four key fields get the same id, whatever their other cells |
| Particionamento.SemRepeticao | pipelines/nfe/src/nfe_etapa22_particionamento.py:117-128 | without repeated ids the suffixing changes nothing, so skipping it when nothing repeats is the same as running it |
| Particionamento.SufixarUnicos | pipelines/nfe/src/nfe_etapa22_particionamento.py:117-126 | with ids free of '_', the k-th repeat's "_k" suffix makes every suffixed id distinct |
| Particionamento.Preparar | pipelines/nfe/src/nfe_etapa22_particionamento.py:82-134 | one row per input row; the id column is added holding the suffixed hash ids; every cell but the id and the two adjusted value columns is kept |
| Particionamento.PrepararUnicos | pipelines/nfe/src/nfe_etapa22_particionamento.py:117-126 | with a hex digest no two rows end with the same id |
| Particionamento.Subconjunto | pipelines/nfe/src/nfe_etapa22_particionamento.py:161-163 | the auxiliary table has the id and the listed columns, no row twice, no row with every listed cell missing, each row a projection of an input row, and every input row with a listed value represented |
| Particionamento.UmPasso | pipelines/nfe/src/nfe_etapa22_particionamento.py:155-168 | KeyError exactly when a listed column exists but the id does not; a specification with no existing column is skipped with nothing changed; otherwise its columns leave the central table and every other cell stays |
| Particionamento.Extrair | pipelines/nfe/src/nfe_etapa22_particionamento.py:150-170 | KeyError exactly when the id is missing and some listed column exists; the central table keeps every row and exactly its unlisted columns with their cells; without any listed column the frame comes back unchanged with no auxiliary table |
| Particionamento.ExtrairAuxiliares | pipelines/nfe/src/nfe_etapa22_particionamento.py:154-168 | every auxiliary table starts with the id, holds only listed columns of the input, has no duplicate row, and every row is an input row read through its columns |
| Particionamento.AjustarMunicipio | pipelines/nfe/src/nfe_etapa22_particionamento.py:173-176 | same columns and rows; no municipality cell reads "SANTA TERESINHA"; those that did read "SANTA TEREZINHA"; every other cell is kept |
| Particionamento.AjustarIdempotente | pipelines/nfe/src/nfe_etapa22_particionamento.py:173-176 | fixing the municipality twice is fixing it once |
| Particionamento.TabelasValidas | pipelines/nfe/src/nfe_etapa22_particionamento.py:44-58 | the table specifications never list a column twice and never list the id |
| Particionamento.Particionar | pipelines/nfe/src/nfe_etapa22_particionamento.py:211-216 | the stage never fails; the central table keeps one row per input row, has the id and exactly the unlisted columns, and no "SANTA TERESINHA"; every auxiliary table is valid for the prepared frame |
| Particionamento.ParticionarCom | pipelines/nfe/src/nfe_etapa22_particionamento.py:211-216 | for any list of specifications without repeats or the id, the cut of the prepared frame keeps one row per input row, exactly the id and the unlisted input columns, no "SANTA TERESINHA", and auxiliary tables valid for the prepared frame |
| PadronizacaoUnidades.UnidadeTexto | pipelines/nfe/src/nfe_etapa21_padronizacao_unidades.py:146-150 | the unit is trimmed, upper-case text, and "" when the frame has no unit column |
| PadronizacaoUnidades.UnidadeFixa | pipelines/nfe/src/nfe_etapa21_padronizacao_unidades.py:146-150 | a unit that is already trimmed upper-case text is left as it is |
| PadronizacaoUnidades.Preparar | pipelines/nfe/src/nfe_etapa21_padronizacao_unidades.py:141-153 | one item per row, each with a clean unit (empty without the unit column) |
| PadronizacaoUnidades.Dividir | pipelines/nfe/src/nfe_etapa21_padronizacao_unidades.py:163-166 | the unit price is missing exactly when the total or the quantity is missing or the quantity is zero; otherwise price times quantity is the total |
| PadronizacaoUnidades.Corrigir180 | pipelines/nfe/src/nfe_etapa21_padronizacao_unidades.py:156-168 | a "180" row becomes CAIXA with a quantity 60 times smaller and a price that times the new quantity gives the total; other rows are untouched |
| PadronizacaoUnidades.RecalcularCaixa | pipelines/nfe/src/nfe_etapa21_padronizacao_unidades.py:171-180 | a CAIXA row's price times its quantity is its total (missing for zero or missing quantity); unit, quantity and total are untouched; other rows are untouched |
| PadronizacaoUnidades.Caixa180Estavel | pipelines/nfe/src/nfe_etapa21_padronizacao_unidades.py:156-180 | the box price recomputation leaves a row the "180" correction produced unchanged |
| PadronizacaoUnidades.RecalcularIdempotente | pipelines/nfe/src/nfe_etapa21_padronizacao_unidades.py:171-180 | recomputing the box prices twice is recomputing them once |
| PadronizacaoUnidades.Buscar | pipelines/nfe/src/nfe_etapa21_padronizacao_unidades.py:185 | a unit with no entry in the table has no value; otherwise the value comes from an entry for that unit |
| PadronizacaoUnidades.Padronizar | pipelines/nfe/src/nfe_etapa21_padronizacao_unidades.py:183-191 | kept plus removed is the input count; the removed count is the number of rows mapped to BD38 or DELETAR; no kept row has such a unit; every kept row is a mapped input row and every surviving input row is kept |
| PadronizacaoUnidades.Consolidar | pipelines/nfe/src/nfe_etapa21_padronizacao_unidades.py:105-115 | consolidation either keeps a unit or makes it UNIDADES (the same file's line 196 too) |
| PadronizacaoUnidades.Aplicar | pipelines/nfe/src/nfe_etapa21_padronizacao_unidades.py:206-254 | a block of masked assignments run in order sets the new unit exactly when the mask holds and some condition does |
| PadronizacaoUnidades.Decisao | pipelines/nfe/src/nfe_etapa21_padronizacao_unidades.py:256-261 | the decision table never yields MISTO or MIL |
| PadronizacaoUnidades.HeuristicaDecisao | pipelines/nfe/src/nfe_etapa21_padronizacao_unidades.py:194-261 | the statement sequence of the heuristics equals the decision table: quantity at most 3 or score at most 1 gives CAIXA, score above 2 gives UNIDADES, and in between the volume and price rules decide |
| PadronizacaoUnidades.Heuristica | pipelines/nfe/src/nfe_etapa21_padronizacao_unidades.py:194-261 | only the unit changes; quantity at most 3 ends as CAIXA; MISTO and MIL never survive; a unit not to be removed does not become one |
| PadronizacaoUnidades.AplicarHeuristicas | pipelines/nfe/src/nfe_etapa21_padronizacao_unidades.py:194-265 | each row goes through the heuristics; the change count is at most the row count and zero exactly when every consolidated unit was kept |
| PadronizacaoUnidades.Etapas | pipelines/nfe/src/nfe_etapa21_padronizacao_unidades.py:183-265 | kept plus removed is the input count, the removed count is the rows mapped away, and every kept row is final (no removed unit, no MISTO or MIL, CAIXA at quantity at most 3) |
| PadronizacaoUnidades.Padronizacao | pipelines/nfe/src/nfe_etapa21_padronizacao_unidades.py:321-335 | the whole stage: kept plus removed rows is the input count, the change count is at most the kept count, every kept row is final |
| Produto.RemoverTesteTabelado | src/modules/produto.py:26-47 | fails exactly when the product column is missing; otherwise keeps exactly the rows whose product text holds neither TESTE nor TABELADO, in order, and the removed count is the marked count |
| Produto.RemoverIdempotente | src/modules/produto.py:26-47 | removing the test and price-table rows a second time removes nothing |
| Produto.CriarFlagComposta | src/modules/produto.py:106-123 | the flag is true exactly when the active-ingredient column exists and its text holds '+', false everywhere else; no other cell changes |
| Produto.AjustarEspacosEmMais | src/modules/produto.py:125-139 | the result is normalised text in which every '+' stands alone, and its characters other than whitespace are those of the input, in order |
| Produto.AjustarValor | src/modules/produto.py:125-139 | a non-text cell is unchanged; a text cell gets the spacing of `AjustarEspacosEmMais` |
| Produto.FlagEstavel | src/modules/produto.py:106-139 | adjusting the spaces around '+' never changes the composite flag |
| Produto.Preparar | src/modules/produto.py:330-334 | step (a) gives upper-case text without ';' |
| Produto.PrepararFixo | src/modules/produto.py:330-334 | upper-case stripped text without ';' and without a leading number, a regulation note, an exclusion note or GENERICO(S) is unchanged by step (a) |
| Produto.Segmentar | src/modules/produto.py:345-379 | every component is non-empty normalised text without a "+" word, and the components' words are the tokens other than "+", in order |
| Produto.PercorrerValido | src/modules/produto.py:349-377 | along the token loop no word is lost, added or reordered and the closed components stay components |
| Produto.SegmentarMais | src/modules/produto.py:349-379 | a "+" token splits the segmentation: the components of the tokens before it followed by those after it |
| Produto.MaisInicialSobra | src/modules/produto.py:388-391 | as written, the final cleanup turns "++X" into "+ X", which still starts with '+' |
| Produto.LimparFinalCorrigida | src/modules/produto.py:388-391 | the cleanup with every '+' and space stripped from both ends gives normalised text, every '+' alone, none at an end |
| Produto.CorrigirESegmentar | src/modules/produto.py:316-393 | non-text and blank text come back unchanged; any other text gives text that is blank or normalised, with every '+' alone and none at an end |
| Produto.CriarBackup | src/modules/produto.py:298-314 | the backup column is made once from the product column and never overwritten; without either column the step fails |
| Produto.AplicarSegmentacao | src/modules/produto.py:395-435 | fails exactly when STATUS is missing or neither backup nor product column exists; the product cell of a generic row is its segmented original name, any other row gets the original name back; no other cell changes |
| Produto.SegmentacaoReexecutavel | src/modules/produto.py:406-429 | applying the step to its own output gives that output again |
| CorrecoesOrtograficas.NormalizarMais | src/modules/correcoes_ortograficas.py:105-111 | the normalised text has no whitespace at either end, no two whitespace characters in a row, no "++", a plain space or an end on each side of every '+', and the same characters other than whitespace as its input |
| CorrecoesOrtograficas.Combinacao | src/modules/correcoes_ortograficas.py:143-146 | the components come out ordered by their lower-cased text, without repetition, and holding exactly the components given |
| CorrecoesOrtograficas.PadronizarTexto | src/modules/correcoes_ortograficas.py:133-148 | blocked text and text with fewer than two components come back unchanged; otherwise the result is the ordered distinct components joined by " + " |
| CorrecoesOrtograficas.PadronizarCombinacoes | src/modules/correcoes_ortograficas.py:117-148 | a missing value stays missing, text is standardised, a number or flag comes back unchanged exactly when its rendering holds a blocking word and fails otherwise |
| CorrecoesOrtograficas.PadronizarIdempotente | src/modules/correcoes_ortograficas.py:117-148 | standardising standardised text changes nothing |
| CorrecoesOrtograficas.PartesJuncao | src/modules/correcoes_ortograficas.py:140-146 | components joined by " + " split back into exactly those components |
| CorrecoesOrtograficas.CorrigirCelula | src/modules/correcoes_ortograficas.py:92-111 | text stays text, normalised around '+' and in its whitespace and keeping the corrected characters other than whitespace; a cell that is not text comes out missing |
| CorrecoesOrtograficas.CorrigirDescricoes | src/modules/correcoes_ortograficas.py:76-114 | fails exactly when the column is missing; otherwise every cell of the column is corrected and no other cell changes |
| CorrecoesOrtograficas.AplicarPadronizacao | src/modules/correcoes_ortograficas.py:151-175 | a missing column leaves the frame as it is; the call fails exactly when some cell fails; a column of missing values and text never fails; otherwise each cell of the column is standardised and nothing else changes |
| CorrecoesOrtograficas.RemoverProcedimento | src/modules/correcoes_ortograficas.py:178-199 | a missing column leaves the frame as it is; otherwise exactly the rows whose upper-cased text is not the procedure remain, in order, and the count of removed rows is the count of procedure rows |
| CorrecoesOrtograficas.RemoverProcedimentoIdempotente | src/modules/correcoes_ortograficas.py:193 | removing the procedure rows twice removes them once |
| CorrecoesOrtograficas.CorrigidaNaoFalha | src/modules/correcoes_ortograficas.py:220-226 | after the corrections a cell is missing or text, so the standardisation that follows cannot fail and leaves missing or text |
| CorrecoesOrtograficas.ProcessarColunas | src/modules/correcoes_ortograficas.py:217-226 | listed columns the frame lacks are skipped; columns not listed never change; listed columns hold missing values or text, and with no column listed twice each holds its corrected then standardised cells |
| CorrecoesOrtograficas.ProcessarCorrecoes | src/modules/correcoes_ortograficas.py:202-234 | the listed columns are processed; when the product column is listed the procedure rows are then dropped, so none remains, and every other processed row is kept in order |
| PrincipioAtivo.FinalizarTexto | pipelines/anvisa_base/src/modules/principio_ativo.py:186-201 | text without " + " is returned as it is; otherwise the result joins with " + " a sorted list having exactly the stripped non-empty components between the '+' signs |
| PrincipioAtivo.FinalizarIdempotente | pipelines/anvisa_base/src/modules/principio_ativo.py:186-201 | finalising finalised text changes nothing |
| PrincipioAtivo.NormalizarInicial | pipelines/anvisa_base/src/modules/principio_ativo.py:67-74 | the normalised cell is missing or upper-case text without ';' that is neither "NAN" nor "NONE" |
| PrincipioAtivo.NormalizarInicialFixo | pipelines/anvisa_base/src/modules/principio_ativo.py:67-74 | stripped upper-case text without ';' keeps its value, and its NAN/NONE spellings become missing |
| PrincipioAtivo.CriarBackup | pipelines/anvisa_base/src/modules/principio_ativo.py:58-74 | a KeyError exactly when neither the backup nor the ingredient column exists; an existing backup is kept, a missing one copies the ingredient column; the ingredient column is the normalised backup; nothing else changes |
| PrincipioAtivo.CriarBackupReexecutavel | pipelines/anvisa_base/src/modules/principio_ativo.py:58-74 | running the backup and normalisation on its own output gives that output again |
| PrincipioAtivo.CriarBackupENormalizar | pipelines/anvisa_base/src/modules/principio_ativo.py:26-80 | after the rename of the accented names, a KeyError exactly when no ingredient column exists under either spelling and there is no backup; otherwise both columns exist, every renamed column exists and the ingredient cells are the normalised backup |
| PrincipioAtivo.RenomeadasPA | pipelines/anvisa_base/src/modules/principio_ativo.py:41-51 | after the rename the ingredient column exists exactly when it existed with or without its accent, and the backup exactly when it existed |
| PrincipioAtivo.OrdenarRegras | pipelines/anvisa_base/src/modules/principio_ativo.py:146-148 | the sorted rules are a permutation of the dictionary with non-increasing wrong-spelling lengths |
| PrincipioAtivo.RegrasEstaveis | pipelines/anvisa_base/src/modules/principio_ativo.py:146-148 | rules of one length keep the dictionary order, and a dictionary already longest first is not moved |
| PrincipioAtivo.LimpezaFinal | pipelines/anvisa_base/src/modules/principio_ativo.py:165-172 | after the cleanup the text has no whitespace at its ends and no two whitespace characters in a row |
| PrincipioAtivo.CelulaDicionario | pipelines/anvisa_base/src/modules/principio_ativo.py:150-178 | a cell becomes missing exactly when its corrected, cleaned and finalised text is empty; otherwise it is non-empty text already in final form |
| PrincipioAtivo.AplicarCorrecoesDicionario | pipelines/anvisa_base/src/modules/principio_ativo.py:131-184 | a KeyError exactly when the ingredient column is absent; otherwise every ingredient cell is missing or non-empty final text, and no other cell changes |
| PrincipioAtivo.MaisFrequente | pipelines/anvisa_base/src/modules/principio_ativo.py:233-236 | the chosen candidate occurs at least as often as every candidate, and among equally frequent candidates it comes first in the value order |
| PrincipioAtivo.Moda | pipelines/anvisa_base/src/modules/principio_ativo.py:233-236 | the mode is a value of the group, occurs most often, and is first in the value order among the most common (`mode()[0]`) |
| PrincipioAtivo.ModaUnica | pipelines/anvisa_base/src/modules/principio_ativo.py:233-236 | any value with the mode's defining property is the mode |
| PrincipioAtivo.Grupo | pipelines/anvisa_base/src/modules/principio_ativo.py:231-236 | a group holds exactly the specified ingredients of the rows with its key, and no unspecified value |
| PrincipioAtivo.Preenchido | pipelines/anvisa_base/src/modules/principio_ativo.py:239-242 | a specified cell stays; an unspecified cell with a group takes a specified value that is the group's mode; without a group the cell stays |
| PrincipioAtivo.PreencherNaoEspecificado | pipelines/anvisa_base/src/modules/principio_ativo.py:207-257 | a KeyError exactly when the ingredient column is absent, or some row is specified and a key column is absent; with no specified row the frame is returned as it is; specified rows never change; unspecified rows take their group's mode when the group exists; the helper column is dropped and nothing else changes |
| PrincipioAtivo.PreencherReexecutavel | pipelines/anvisa_base/src/modules/principio_ativo.py:207-257 | filling the filled frame again gives the same frame |
| PrincipioAtivo.TextosDe | pipelines/anvisa_base/src/modules/principio_ativo.py:374-376 | an AttributeError exactly when a value that is neither text nor missing occurs; otherwise the texts of the column |
| PrincipioAtivo.Candidatos | pipelines/anvisa_base/src/modules/principio_ativo.py:374-376 | the compared values are sorted and are exactly the texts with at most three '+' and more than three characters |
| PrincipioAtivo.Pares | pipelines/anvisa_base/src/modules/principio_ativo.py:382-386 | every kept pair is an (earlier, later) pair of the list similar enough, and every such pair is kept |
| PrincipioAtivo.Orientar | pipelines/anvisa_base/src/modules/principio_ativo.py:390 | the right spelling is the longer of the pair, and the pair is only reordered |
| PrincipioAtivo.PrimeiraSugestao | pipelines/anvisa_base/src/modules/principio_ativo.py:389-393 | there is a suggestion for a wrong spelling exactly when a pair has it as its shorter text, and it comes from the first such pair |
| PrincipioAtivo.Sugerir | pipelines/anvisa_base/src/modules/principio_ativo.py:389-393 | the dictionary has exactly the wrong spellings of some pair, each with the right spelling of its first pair |
| PrincipioAtivo.Sugestoes | pipelines/anvisa_base/src/modules/principio_ativo.py:374-393 | every suggestion joins two compared texts, the shorter to the longer, similar enough in compared order; every similar pair gives its shorter text a suggestion |
| PrincipioAtivo.AnalisarFuzzy | pipelines/anvisa_base/src/modules/principio_ativo.py:350-410 | a KeyError without the column and an AttributeError for a non-text value; otherwise every suggestion joins two distinct analysable texts of the column, and every similar pair of them is covered |
| ApresentacaoValores.CanonicoImpresso | src/modules/apresentacao.py:148 | printing the value of a canonical numeral gives the numeral back |
| ApresentacaoValores.SemZerosEsquerda | src/modules/apresentacao.py:148 | `str(int(x))` of a digit string is canonical and is the writing of the string's value |
| ApresentacaoValores.FmtDecimal | src/modules/apresentacao.py:146-151 | a non-digit integer part reads as 0; a missing or all-zero fraction is dropped, any other follows a comma verbatim |
| ApresentacaoValores.FmtDecimalLido | src/modules/apresentacao.py:146-151 | split at the comma, the formatted value gives back the integer part's value and the fraction verbatim |
| ApresentacaoValores.FmtDecimalDecimal | src/modules/apresentacao.py:146-151 | with a digit fraction or none the result is a canonical decimal |
| ApresentacaoValores.Digitos | src/modules/apresentacao.py:159-189 | only digit tokens remain |
| ApresentacaoValores.PartesPoG | src/modules/apresentacao.py:154-179 | the PO pairing reads tokens 2k and 2k+1 as value k, a trailing token alone; ceil(n/2) values for n digit tokens |
| ApresentacaoValores.BolsaImpar | src/modules/apresentacao.py:205-216 | for an odd count, pairs formed from the right: the first token alone, then tokens 2k-1 and 2k |
| ApresentacaoValores.PartesBolsa | src/modules/apresentacao.py:182-217 | the BOLSA pairing: left-to-right pairs on an even count, the first token alone then pairs on an odd count; ceil(n/2) values |
| ApresentacaoValores.BolsaEPo | src/modules/apresentacao.py:154-217 | BOLSA and PO pairing agree on an even count; on an odd count BOLSA is the first token alone followed by the PO pairing of the rest |
| ApresentacaoValores.ContaDigitos | src/modules/apresentacao.py:159-189 | the kept tokens are exactly as many as the digit tokens |
| ApresentacaoValores.PassoDe | src/modules/apresentacao.py:242-283 | one round of the main loop consumes one or two tokens, and a fraction it takes is a prefix of the next token |
| ApresentacaoValores.Laco | src/modules/apresentacao.py:238-285 | the main loop yields between half the digit tokens and all of them, each value's parts digit runs |
| ApresentacaoValores.ParseValues | src/modules/apresentacao.py:220-285 | outside UI blocks every value is a canonical decimal and there are between half the digit tokens and all of them; UI values are the tokens themselves or a single value, and either way run together to the tokens run together |
| ApresentacaoValores.ValoresDecimais | src/modules/apresentacao.py:220-285 | outside UI blocks every value is a canonical decimal, and there are between half the digit tokens and all of them |
| Apresentacao.CollapseSpaces | src/modules/apresentacao.py:134-136 | the result has single spaces and no spaces at the ends, and the same words as the input |
| Apresentacao.SplitDigitsLetters | src/modules/apresentacao.py:139-143 | no digit touches an upper-case letter in either order, and only spaces were added |
| Apresentacao.JoinUnitSepara | src/modules/apresentacao.py:129-131 | the joined unit splits at '/' back into the units it was made of |
| Apresentacao.Render | src/modules/apresentacao.py:327-330 | a single value comes first, several are in parentheses, and the unit ends the text after a space |
| Apresentacao.Estender | src/modules/apresentacao.py:314-325 | the merged group runs up to the first block that may not join, so it is maximal |
| Apresentacao.MergeAdjacentSameUnit | src/modules/apresentacao.py:299-336 | the result is whitespace-normalised, and without blocks it has the same words as the input |
| Apresentacao.SemCompostoSeparadas | src/modules/apresentacao.py:312-314 | without a compound substance no blocks merge and each is rendered alone |
| Apresentacao.MesclaGrupo | src/modules/apresentacao.py:314-325 | blocks with blank gaps and one unit are rendered once, with all their values |
| Apresentacao.NormalizarApresentacao | src/modules/apresentacao.py:344-437 | non-text and blank text come back unchanged; text without blocks is the prepared text; with blocks the result is whitespace-normalised (block search and post-merge rewrites are parameters) |
| Apresentacao.LimparApresentacaoFinal | src/modules/apresentacao.py:440-473 | non-text and blank text come back unchanged; other text comes back whitespace-normalised |
| Apresentacao.LimparFixo | src/modules/apresentacao.py:440-473 | normalised text the rewrite chain leaves alone is returned as it is |
| Apresentacao.PosicoesCxBl | src/modules/apresentacao.py:596 | a match starts at the position, and both digit groups are non-empty and inside the text |
| Apresentacao.ExpandirCxBl | src/modules/apresentacao.py:576-596 | non-text comes back unchanged, and text with no match comes back unchanged |
| Apresentacao.PosicoesLayout | src/modules/apresentacao.py:596 | "CX a BL X b" is matched whole, with a and b as its groups |
| Apresentacao.ExpandirTexto | src/modules/apresentacao.py:576-596 | "CX a BL X b" becomes "BL X " followed by the product of the values of a and b |
| Apresentacao.ExpandirCanonico | src/modules/apresentacao.py:590-596 | "CX x BL X y" with x and y printed becomes "BL X " followed by x*y printed |
| ApresentacaoUnica.Renomear | src/nfe_matching_apresentacao_unica.py:101-113 | a renaming that keeps names distinct renames each column in place, and every cell moves with its column |
| ApresentacaoUnica.RenomearCols | src/nfe_matching_apresentacao_unica.py:101-113 | the renamed frame has the renamed columns, and, for an injective renaming, only those |
| ApresentacaoUnica.SufixarInjetiva | src/nfe_matching_apresentacao_unica.py:108-112 | the `_MASTER` renaming never sends two columns to one name |
| ApresentacaoUnica.CriarBaseMestreCompleta | src/nfe_matching_apresentacao_unica.py:273-304 | ValueError exactly when both bases are missing; otherwise every row of both, the ANVISA base under its own column names and the manual base under normalised names |
| ApresentacaoUnica.ColunaApresentacao | src/nfe_matching_apresentacao_unica.py:313-319 | APRESENTACAO when present, else APRESENTACAO_ORIGINAL, else none |
| ApresentacaoUnica.Selecionados | src/nfe_matching_apresentacao_unica.py:320-337 | exactly the non-missing products of the base that qualify as having one presentation |
| ApresentacaoUnica.QualificaComColuna | src/nfe_matching_apresentacao_unica.py:327-337 | with a presentation column a product qualifies iff it has one non-missing presentation and every row of it has that one or none |
| ApresentacaoUnica.QualificaSemColuna | src/nfe_matching_apresentacao_unica.py:321-337 | without a presentation column a product qualifies iff exactly one row names it |
| ApresentacaoUnica.MasterParaJoin | src/nfe_matching_apresentacao_unica.py:341-356 | rows of selected products only, one per (product, presentation) key, every selected product's key represented |
| ApresentacaoUnica.IdentificarProdutos | src/nfe_matching_apresentacao_unica.py:307-360 | a missing PRODUTO column is a KeyError; otherwise the selected products and their join base |
| ApresentacaoUnica.UmaLinhaPorProduto | src/nfe_matching_apresentacao_unica.py:353-356 | without a presentation column the join base has one row per selected product |
| ApresentacaoUnica.ParticionarTrabalhando | src/nfe_matching_apresentacao_unica.py:363-377 | the candidates and the others have the input's columns, together are the input, and split on whether the cleaned name is selected |
| ApresentacaoUnica.Mesclado | src/nfe_matching_apresentacao_unica.py:393-413 | the merged frame without the `_DROP`, `.1` and `.2` columns, every other cell as the merge made it |
| ApresentacaoUnica.SemDuplicatas | src/nfe_matching_apresentacao_unica.py:424-428 | with chave_codigo, the first row of each key, every key kept once; without it, each distinct row once |
| ApresentacaoUnica.ExecutarJoin | src/nfe_matching_apresentacao_unica.py:380-435 | no candidates give an empty frame; missing join columns are a KeyError; otherwise the deduplicated join |
| ApresentacaoUnica.MescladoChaves | src/nfe_matching_apresentacao_unica.py:393-413 | a kept item column carries over the merged frame exactly the values it had over the items |
| ApresentacaoUnica.IntegradoChaves | src/nfe_matching_apresentacao_unica.py:415-421 | a column that is neither a master nor a reference column keeps every cell through integration |
| ApresentacaoUnica.JoinChaves | src/nfe_matching_apresentacao_unica.py:380-435 | the join result has one row per chave_codigo, and exactly the codes of the candidates |
| ApresentacaoUnica.MescladoUmPorCandidato | src/nfe_matching_apresentacao_unica.py:393-400 | against a join base with one row per product the merge keeps one row per candidate, agreeing with it on every kept column |
| ApresentacaoUnica.UnidoCelulas | src/nfe_matching_apresentacao_unica.py:393-421 | before deduplication the kept non-reference cells are the candidate's |
| ApresentacaoUnica.SemDuplicatasDistintas | src/nfe_matching_apresentacao_unica.py:425-426 | a frame whose codes are already distinct is its own deduplication |
| ApresentacaoUnica.JoinUmPorCandidato | src/nfe_matching_apresentacao_unica.py:380-435 | with distinct products and codes the join returns one row per candidate with its own non-reference cells |
| ApresentacaoUnica.JoinSemPerdas | src/nfe_matching_apresentacao_unica.py:424-428 | under the same conditions the deduplication removes nothing |
| ApresentacaoUnicaColunas.VariacoesNomeColuna | src/nfe_matching_apresentacao_unica.py:123-135 | the non-empty spellings of the four variants, without repetitions, the name itself first |
| ApresentacaoUnicaColunas.VariacoesMesmoEsqueleto | src/nfe_matching_apresentacao_unica.py:126-131 | every variant spells the same name once spaces and underscores are ignored |
| ApresentacaoUnicaColunas.CandidatosColunaMaster | src/nfe_matching_apresentacao_unica.py:115-150 | the `_MASTER` variants of the name and its alternatives, without repetitions, all ending in `_MASTER`, the name's own first |
| ApresentacaoUnicaColunas.NormalizarPlaceholder | src/nfe_matching_apresentacao_unica.py:153-177 | a cell becomes missing exactly when it is missing or is a placeholder in an EAN column; otherwise it is unchanged |
| ApresentacaoUnicaColunas.NormalizarPlaceholderIdempotente | src/nfe_matching_apresentacao_unica.py:153-177 | cleaning placeholders twice is cleaning them once |
| ApresentacaoUnicaColunas.PrimeiroNaoNulo | src/nfe_matching_apresentacao_unica.py:194-200 | combining the candidates gives the first non-missing one in candidate order, missing when all are |
| ApresentacaoUnicaColunas.IntegrarColunasMaster | src/nfe_matching_apresentacao_unica.py:180-220 | an empty frame is returned as it is; otherwise the row count is kept |
| ApresentacaoUnicaColunas.PercorrerRef | src/nfe_matching_apresentacao_unica.py:192-211 | each reference column ends with the value its own round computes from the input |
| ApresentacaoUnicaColunas.IntegrarPreenche | src/nfe_matching_apresentacao_unica.py:192-211 | a reference column with a candidate keeps its own non-placeholder value, else takes the first master value |
| ApresentacaoUnicaColunas.IntegrarPreserva | src/nfe_matching_apresentacao_unica.py:180-220 | every kept non-reference column keeps its cells |
| ApresentacaoUnicaColunas.IntegrarSemSobras | src/nfe_matching_apresentacao_unica.py:213-218 | a remaining `_MASTER` column is a candidate some reference column used |
| ApresentacaoUnicaColunas.IntegrarCols | src/nfe_matching_apresentacao_unica.py:180-220 | integration adds only reference columns and drops only `_MASTER` columns |
| ApresentacaoUnicaColunas.AlinharParaSchema | src/nfe_matching_apresentacao_unica.py:68-98 | an empty frame is returned as it is; otherwise exactly the reference columns in reference order, each cell the input's or missing |
| ApresentacaoUnicaColunas.AlinharIdempotente | src/nfe_matching_apresentacao_unica.py:68-98 | aligning an aligned frame changes nothing |
| Dosagem.PrepararTexto | dosagem.py:85-89 | the prepared text holds no comma |
| Dosagem.MilharSoPontos | dosagem.py:87 | removing the thousands separators removes dots and nothing else |
| Dosagem.QuantidadeMl | dosagem.py:124-128 | QUANTIDADE ML is missing exactly when no "<n> ML" occurs |
| Dosagem.ValorUi | dosagem.py:136-140 | a UI amount converts exactly when it is all digits once spaces and dots are removed |
| Dosagem.SomaUiPositiva | dosagem.py:133-141 | the UI total is positive exactly when some amount is |
| Dosagem.QuantidadeUi | dosagem.py:130-143 | QUANTIDADE UI is positive when present, and present exactly when some match converts to a positive amount |
| Dosagem.XGenericoSemMedida | dosagem.py:69 | the count X_GENERICO takes is never followed by a unit of measure |
| Dosagem.ContarUnidades | dosagem.py:145-197 | CX_NUM_ITEM, NUM_ITEM, CX_SIMPLES, X_GENERICO and FALLBACK_1_ITEM each apply exactly when every earlier rule fails and their own pattern occurs; with no rule or the fallback the count is 1 |
| Dosagem.Extrair | dosagem.py:83-184 | the quantities of one text: UI positive when present, and one unit when no rule applies |
| Dosagem.Anexar | dosagem.py:43-51 | an absent or output column, or an empty frame, is an error; otherwise the old output columns are dropped, the other cells kept and the new ones appended, the rule column only when debugging (the same file's lines 186-202 too) |
| Dosagem.ExtrairQuantidades | dosagem.py:11-202 | the same, with every row's cells the quantities read from its presentation, a missing cell reading as "" |
| Dosagem.AnexarIdempotente | dosagem.py:42-51 | running the extraction on its own output gives the same frame |
| Dosagem.DropAnexada | dosagem.py:51 | dropping the output columns of an extended frame gives the frame back (the same file's lines 187-188 too) |
| Dosagem.ExtrairQuantidadesIdempotente | dosagem.py:42-51 | extracting twice is extracting once |
| Dosagem.SomaMgAusente | dosagem.py:92-110 | the dosage sum is missing exactly when no dosage matches |
| Dosagem.DoseTemNumero | dosagem.py:75-97 | every dosage match holds at least one number, so a match always sets the found flag |
| Dosagem.MgAusente | dosagem.py:92-121 | QUANTIDADE MG is missing exactly when no dosage matches and the BISNAGA rule does not apply |
| Dosagem.BisnagaUltimo | dosagem.py:112-121 | for a tube QUANTIDADE MG is 1000 times the rightmost "<n> G" |
| Dosagem.SemDigitos | dosagem.py:83-184 | a text without digits yields no dosage, volume or UI, and one item |
| Dosagem.SanitizarSemX | dosagem.py:150 | the sanitiser leaves a text without "X" as it is |
| Etapa14Ia.Corte | pipelines/nfe/src/nfe_etapa14_extracao_ia.py:117-120 | the cut is the leftmost separator match from the start point, or the end of the text when there is none |
| Etapa14Ia.Truncar | pipelines/nfe/src/nfe_etapa14_extracao_ia.py:113-120 | the description up to its first separator, stripped: no separator is left in it and its ends are not whitespace |
| Etapa14Ia.TruncarSemSeparador | pipelines/nfe/src/nfe_etapa14_extracao_ia.py:118-120 | text without a separator is only stripped |
| Etapa14Ia.TruncarIdempotente | pipelines/nfe/src/nfe_etapa14_extracao_ia.py:118-120 | truncating twice truncates once |
| Etapa14Ia.CorteUnico | pipelines/nfe/src/nfe_etapa14_extracao_ia.py:118-120 | any cut at a separator, or at the end, with no separator before it is the cut the split makes |
| Etapa14Ia.SemDeletar | pipelines/nfe/src/nfe_etapa14_extracao_ia.py:141-143 | exactly the rows not marked DELETAR, in order, with the same columns |
| Etapa14Ia.Truncadas | pipelines/nfe/src/nfe_etapa14_extracao_ia.py:118-120 | every description is cut at its first separator, rows and columns otherwise unchanged |
| Etapa14Ia.Medicinais | pipelines/nfe/src/nfe_etapa14_extracao_ia.py:124-131 | exactly the rows whose description names no excluded non-medicinal product, in order |
| Etapa14Ia.Limpas | pipelines/nfe/src/nfe_etapa14_extracao_ia.py:137-139 | every text description comes out normalised |
| Etapa14Ia.PrepararDadosParaIa | pipelines/nfe/src/nfe_etapa14_extracao_ia.py:97-147 | a KeyError exactly when the description column is missing; otherwise the same columns, no DELETAR row, and every text description normalised |
| Etapa14Ia.PrepararUmPasso | pipelines/nfe/src/nfe_etapa14_extracao_ia.py:108-143 | the four passes amount to one: keep the rows a single test accepts, in order, and rewrite each |
| Etapa14Ia.SemDeletarSemColuna | pipelines/nfe/src/nfe_etapa14_extracao_ia.py:142 | without the cleaned-name column no row reads as DELETAR, so skipping that filter loses nothing |
| Etapa14Ia.CriarResultadosIaVazios | pipelines/nfe/src/nfe_etapa14_extracao_ia.py:300-305 | a KeyError exactly when the description column is missing; otherwise one row per distinct description, the same set of descriptions, and every attribute missing |
| Etapa14Ia.MapaDe | pipelines/nfe/src/nfe_etapa14_extracao_ia.py:335-338 | every key of the pairs is in the map, and it maps to the value of its last pair |
| Etapa14Ia.MapaLabsPresente | pipelines/nfe/src/nfe_etapa14_extracao_ia.py:334-338 | every key and every correction in the map is present, because rows with a missing name or correction are dropped first |
| Etapa14Ia.AplicarCorrecoesLaboratorio | pipelines/nfe/src/nfe_etapa14_extracao_ia.py:308-353 | an error exactly when the dictionary lacks one of its two columns; no dictionary or no laboratory column returns the results unchanged; otherwise each laboratory name in the map is replaced by its correction and every other cell stays |
| Etapa14Ia.CorrecoesPreservamPreenchidos | pipelines/nfe/src/nfe_etapa14_extracao_ia.py:345-347 | the corrections never fill or empty a cell: as many laboratory names are present after as before |
| Etapa14Ia.CorrecoesIdempotentes | pipelines/nfe/src/nfe_etapa14_extracao_ia.py:346 | when no correction is itself renamed, running the corrections again changes nothing |
| Etapa14Ia.ResultadosUnicos | pipelines/nfe/src/nfe_etapa14_extracao_ia.py:366 | `drop_duplicates(subset=['descricao_produto'])`: every description of the projected results is kept exactly once, and each kept row is the first projected row with its description |
| Etapa14Ia.JuntarResultadosIa | pipelines/nfe/src/nfe_etapa14_extracao_ia.py:356-390 | an error exactly when the results lack a column or the frame has no description; otherwise one row per working row, whose own cells stay and whose attributes are those of the first result for its description as loaded |
| Etapa14Ia.MergeLinha | pipelines/nfe/src/nfe_etapa14_extracao_ia.py:373-378 | a left merge against distinct keys gives each left row extended with the cells of its match, if it has one |
| Etapa14Ia.ObterResultados | pipelines/nfe/src/nfe_etapa14_extracao_ia.py:453-469 | the API's failure is a RuntimeError and the only error; without the API or a results file the empty placeholder results are used |
| Etapa14Ia.ProcessarExtracaoIa | pipelines/nfe/src/nfe_etapa14_extracao_ia.py:435-493 | a KeyError without descriptions, a RuntimeError when the API fails; otherwise one row per input row, whose own cells stay |
| Etapa14Ia.SemResultadosAtributosNulos | pipelines/nfe/src/nfe_etapa14_extracao_ia.py:459-475 | without the API or a results file every attribute of the final frame is missing |
| Etapa14Ia.ChaveOriginalPerdeResultado | pipelines/nfe/src/nfe_etapa14_extracao_ia.py:118-120 | "DIPIRONA LOTE 1" is sent as "DIPIRONA" and answered, yet the as-written merge gives its row no attribute while the corrected merge does (the same file's lines 366-378 too) |
| Etapa14Ia.TruncarDipirona | pipelines/nfe/src/nfe_etapa14_extracao_ia.py:113-120 | "DIPIRONA LOTE 1" is sent as "DIPIRONA" |
| Etapa14Ia.JuntarResultadosIaCorrigida | pipelines/nfe/src/nfe_etapa14_extracao_ia.py:366-378 | the merge as evidently intended: the same errors and columns, and each row takes the attributes of the description it was sent with while keeping its own description |
| Etapa14Ia.CorrigidaRestaura | pipelines/nfe/src/nfe_etapa14_extracao_ia.py:366-378 | the corrected merge is the as-written merge of the prepared frame, with each row's description restored |
| Etapa14Ia.CorrigidaConcorda | pipelines/nfe/src/nfe_etapa14_extracao_ia.py:366-378 | when every description is already in its prepared form, the two merges agree |
| ExtracaoNomes.SemPrefixo | pipelines/nfe/src/nfe_extracao_nomes.py:120 | a text with the prefix is the prefix followed by the result; any other text is unchanged |
| ExtracaoNomes.Preprocessar | pipelines/nfe/src/nfe_extracao_nomes.py:100-127 | the cleaned description is upper case with single spaces between its words and none at the ends |
| ExtracaoNomes.PreprocessarFixo | pipelines/nfe/src/nfe_extracao_nomes.py:112-123 | a normalised upper-case text without ID, ITEM or the "C 1 " prefix is cleaned to itself |
| ExtracaoNomes.PrefixoUmaVez | pipelines/nfe/src/nfe_extracao_nomes.py:120 | the prefix goes only once: "C 1 C 1 w" keeps the second "C 1 " |
| ExtracaoNomes.PularIgnorados | pipelines/nfe/src/nfe_extracao_nomes.py:162-163 | the words left are a suffix of the words, everything dropped was an ignored term, and the first word left is not one |
| ExtracaoNomes.TomarNomeDe | pipelines/nfe/src/nfe_extracao_nomes.py:165-178 | the name loop takes words up to the first stop term or word with a digit, a special letter ending the name as its first character |
| ExtracaoNomes.NomeDeUnico | pipelines/nfe/src/nfe_extracao_nomes.py:165-178 | that positional description fixes the name: only the loop's word list meets it |
| ExtracaoNomes.ExtrairNomeLogica | pipelines/nfe/src/nfe_extracao_nomes.py:137-178 | non-text and empty text give ""; otherwise the name is single-spaced and its words are the loop's over the words left after the ignored terms |
| ExtracaoNomes.NomeLogicaSemDigito | pipelines/nfe/src/nfe_extracao_nomes.py:168-174 | the rule-based name holds no digit |
| ExtracaoNomes.SoIgnorados | pipelines/nfe/src/nfe_extracao_nomes.py:162-163 | a description made only of ignored terms is given the empty name |
| ExtracaoNomes.Rapido | pipelines/nfe/src/nfe_extracao_nomes.py:237-241 | without a regex nothing resolves; a resolution is the dictionary's product for the leftmost key match |
| ExtracaoNomes.ChaveMinusculaNaoResolve | pipelines/nfe/src/nfe_extracao_nomes.py:118 | a dictionary whose keys are not upper case never resolves the upper-cased descriptions (the same file's lines 239-240 too) |
| ExtracaoNomes.NomeProduto | pipelines/nfe/src/nfe_extracao_nomes.py:237-270 | the dictionary's name when the first pass resolves the row, the rule-based one otherwise |
| ExtracaoNomes.SemRegexSoRegras | pipelines/nfe/src/nfe_extracao_nomes.py:243-270 | without a regex every row is named by the rules and carries no digit |
| ExtracaoNomes.ExecutarExtracaoNomes | pipelines/nfe/src/nfe_extracao_nomes.py:185-300 | without the column the frame is returned as it is; otherwise NOME_PRODUTO is added from the cleaned description, the helper column is gone and every other cell stays |
| ExtracaoNomes.ExtracaoSemNulos | pipelines/nfe/src/nfe_extracao_nomes.py:251-281 | every row is named, and a row the dictionary pass leaves open is named by the rules |
| UnificacaoVigencias.Unificar | pipelines/anvisa_base/src/modules/unificacao_vigencias.py:117-156 | the columns are kept and the merged table never has more rows than the input (its partners UnificarMaximal, UnificarIdempotente, UnificarOrdenada and UnificarCobre say which rows) |
| MatchingAnvisa.Cascata | src/nfe_matching_anvisa.py:130-152 | the four lookups in order leave the item's own barcode and registry keys unchanged (CascataPrimeiraVia compares it with the reference PrimeiraVia) |
| Finalizacao.FinalizarVazioFalha | pipelines/nfe/src/nfe_etapa16_finalizacao_pipeline.py:258-268 | the empty frame with a PRODUTO column fails as written, and gives empty outputs when corrected |
| Produto.CorrigirESegmentarCorrigida | src/modules/produto.py:316-393 | corrected: non-text and blank text come back unchanged; other text becomes blank or normalised text, every '+' alone and none at an end |
| NfeLimpeza.LimparColunaDescricao | src/nfe_limpeza.py:222-261 | every description is replaced by its cleaned text and every other cell is kept |
| NfeLimpeza.LimparColunaQuantidade | src/nfe_limpeza.py:264-274 | with the quantity column every quantity becomes a whole number and nothing else changes; without it the frame is returned as it is |
| CorrecoesOrtograficas.ProcessarColuna | src/modules/correcoes_ortograficas.py:215-226 | one column gets the corrections and then the standardisation, ending missing or text; every other column stays |
| Particionamento.ComIds | pipelines/nfe/src/nfe_etapa22_particionamento.py:115 | each row gets its own id, the id column is added at the end when absent, and every other cell stays |
| Particionamento.Corrigir | pipelines/nfe/src/nfe_etapa22_particionamento.py:173-176 | no cell is left as "SANTA TERESINHA", and every other cell stays |
| Vigencias.Preparar | aa.py:251-254 | a row is prepared exactly when its year and month make a timestamp; it is then dated on the first of that month and its product id is built from the registry and GGREM code |
| Vigencias.Intervalos | aa.py:260-281 | one dated interval per start row of the sorted frame, in that order, each with its start row's product |
| Vigencias.Finalizar | aa.py:284-320 | one row per (product, start), sorted by that key, each price id coherent with its product and start |
| MatchingManual.Atualizada | src/nfe_matching_manual.py:198-208 | every row is updated in place by its lookup entry; the columns and the row count stay |
| MatchingAnvisa.EanNorm | src/nfe_matching_anvisa.py:17-24 | a key exists exactly when the cell has 13 or 14 digits whose last 13 are not all zero, and it is those last 13 digits |
| MatchingAnvisa.EanNormIdempotent | src/nfe_matching_anvisa.py:17-24 | a barcode key is its own key |
| MatchingAnvisa.RegNorm | src/nfe_matching_anvisa.py:27-32 | a key exists exactly when the first 13 digits are not all zero, and it is those digits left-padded with zeros to 13 |
| MatchingAnvisa.RegNormIdempotent | src/nfe_matching_anvisa.py:27-32 | a registration key is its own key |
| MatchingAnvisa.SemGtinSemChave | src/nfe_matching_anvisa.py:101-135 | a "SEM GTIN" barcode never has a key, so excluding such items never changes an outcome |
| MatchingAnvisa.FirstNonNull | src/nfe_matching_anvisa.py:113-115 | the group's first non-missing value of a column, missing only when every row's is |
| MatchingAnvisa.Lookup | src/nfe_matching_anvisa.py:109-121 | a lookup row exists iff some product has the key; its id list is sorted, without repetitions, and holds exactly the ids of the products with the key |
| MatchingAnvisa.Atualizar | src/nfe_matching_anvisa.py:145 | `DataFrame.update`: non-missing new cells replace the old ones of the same columns and every other cell stays |
| MatchingAnvisa.AtualizarIdempotent | src/nfe_matching_anvisa.py:145 | updating twice with the same row is updating once |
| MatchingAnvisa.Passo | src/nfe_matching_anvisa.py:130-146 | an item already matched is untouched; an unmatched item is matched exactly when its key exists, it is not excluded and the lookup finds it, and then takes the lookup's ids, metadata and step tag |
| MatchingAnvisa.CascataPrimeiraVia | src/nfe_matching_anvisa.py:149-152 | the cascade's tag is the first of the four keys that finds a product, it matches iff some key does, and its ids are exactly the products sharing that key |
| MatchingAnvisa.Enriquecer | src/nfe_matching_anvisa.py:39-162 | one enriched item per invoice item, in order, with its own barcode and registration |
| PrecosVigentes.PrecoMaximo | src/nfe_matching_anvisa.py:227-241 | with CAP the price is a PMVG column, otherwise a PF column; with ICMS 0% it is a 0% column, otherwise a 20% column |
| PrecosVigentes.PrecoMaximoMesmasFlags | src/nfe_matching_anvisa.py:227-241 | rows with the same flags and prices get the same maximum price |
| PrecosVigentes.Proximo | src/nfe_matching_anvisa.py:246-249 | the next period of the same id in sorted order, none exactly when there is no later one |
| PrecosVigentes.FimAntesDoProximo | src/nfe_matching_anvisa.py:248-250 | a filled end falls strictly before every later period of the same id |
| PrecosVigentes.FimAbertoSoNoUltimo | src/nfe_matching_anvisa.py:248-250 | a missing end stays missing exactly for an id's last period |
| PrecosVigentes.PrepararBasePrecos | src/nfe_matching_anvisa.py:169-265 | one period per complete price row, each with that row's id, start and maximum price |
| PrecosVigentes.AsOf | src/nfe_matching_anvisa.py:326-334 | the backward as-of match: the period of the id with the latest start on or before the date, the later row on equal starts, none exactly when no such period exists |
| PrecosVigentes.PrimeiroValido | src/nfe_matching_anvisa.py:342-344 | the first candidate in list order that passes, none exactly when none does |
| PrecosVigentes.PrecoComoEscritoVigente | src/nfe_matching_anvisa.py:342-344 | as written, a flag set for an item comes from a period of one of its ids that started by the emission date and had not ended |
| PrecosVigentes.ComoEscritoPerdePreco | src/nfe_matching_anvisa.py:342-344 | as written, a first candidate without any period passes the validity test and leaves the item without a price although the second candidate has one in force |
| PrecosVigentes.ComoEscritoComCasamento | src/nfe_matching_anvisa.py:342-344 | when every candidate has a period started by the emission date, the as-written and the intended rule give the same cells |
| PrecosVigentes.PrecoDoItem | src/nfe_matching_anvisa.py:326-363 | intended: a price only for an item with ids and a date; cells exactly when a candidate has a period in force |
| PrecosVigentes.PrecoDoItemVigente | src/nfe_matching_anvisa.py:326-363 | intended: the price comes from a period of one of the item's ids in force on the emission date |
| PrecosVigentes.JuntarPrecosVigentes | src/nfe_matching_anvisa.py:272-370 | as written: one result per item; an item without ids or date gets nothing; each item gets the as-written price of its candidates |
| PrecosVigentes.JuntarPrecosVigentesCorrigida | src/nfe_matching_anvisa.py:272-370 | intended: one result per item; cells only from a period of one of its ids in force on its emission date |
| PrecosVigentes.Pedacos | src/nfe_matching_anvisa.py:299-301 | every piece is a stripped, unquoted piece of the text, blank pieces skipped |
| PrecosVigentes.EnsureList | src/nfe_matching_anvisa.py:286-302 | a list stays a list, missing stays missing, a text without brackets becomes a one-element list, and an empty list arises only from a list or from a literal that reads as one |
| PrecosVigentes.PedacosLimpos | src/nfe_matching_anvisa.py:299-301 | clean ids split out unchanged |
| PrecosVigentes.EnsureListRoundTrip | src/nfe_matching_anvisa.py:286-302 | clean ids written as `[a,b,c]` that the literal reader rejects are read back as the same list |
| Esfera.CnpjKeyShape | pipelines/nfe/src/nfe_etapa20_classificacao_esfera.py:70-125 | the join key is all digits, at least 14 long, ends with the digits of the stripped upper-cased CNPJ, and equals them when there are 14 or more |
| Esfera.MissingKeysJoin | pipelines/nfe/src/nfe_etapa20_classificacao_esfera.py:70-125 | a missing CNPJ becomes fourteen zeros, so missing CNPJs on both sides join with each other |
| Esfera.CnpjKeyIdempotent | pipelines/nfe/src/nfe_etapa20_classificacao_esfera.py:123-125 | cleaning an already cleaned key gives the same key |
| Esfera.Sobrescrever | pipelines/nfe/src/nfe_etapa20_classificacao_esfera.py:144-149 | an estadual name forces sphere 2, otherwise a municipal name forces 1, otherwise the joined ID_ESFERA is kept |
| Esfera.IdFinal | pipelines/nfe/src/nfe_etapa20_classificacao_esfera.py:151-153 | forced ids pass through; a missing or unparsable id becomes 1; a parsed id casts to Int64 only when it is integral |
| Esfera.Finalizar | pipelines/nfe/src/nfe_etapa20_classificacao_esfera.py:151-153 | the column cast succeeds exactly when every row's cast succeeds, and then gives each row its own id |
| Esfera.ClassificarCom | pipelines/nfe/src/nfe_etapa20_classificacao_esfera.py:117-155 | every joined row not excluded by name comes out, in order, with the id its override and the Int64 cast give it; the cast fails exactly when one kept row's id fails it; so no excluded recipient survives, estadual ones get 2 and the remaining municipal ones 1 |
| Esfera.ClassificarPorDestinatario | pipelines/nfe/src/nfe_etapa20_classificacao_esfera.py:117-155 | with distinct sphere-table keys the result is per recipient: exactly the recipients on no exclusion list, in order, each with the overridden and cast id of its own table row (missing when the table has none); an error exactly when one of those casts fails |
| Esfera.ClassificarSemLista | pipelines/nfe/src/nfe_etapa20_classificacao_esfera.py:144-153 | with distinct sphere-table keys a kept recipient on no list gets its table id as a number, or 1 when the table has no row for its CNPJ or the id does not parse |
| Esfera.JuntarUnico | pipelines/nfe/src/nfe_etapa20_classificacao_esfera.py:127-133 | with distinct sphere-table keys the left merge keeps one row per recipient, in order |
| Sobrepreco.Razao | pipelines/nfe/src/nfe_etapa18_sobrepreco.py:86-90 | the ratio exists exactly when both operands exist and the ceiling is non-zero, and it times the ceiling gives the unit value |
| Sobrepreco.Classificar | pipelines/nfe/src/nfe_etapa18_sobrepreco.py:92-105 | each of the seven classes holds exactly on its ratio band, and NAO CLASSIFICADO exactly when the ratio is missing |
| Sobrepreco.ClassificarMonotone | pipelines/nfe/src/nfe_etapa18_sobrepreco.py:33-106 | a larger ratio never lands in an earlier class of the ordered category |
| Sobrepreco.NoTetoDentro | pipelines/nfe/src/nfe_etapa18_sobrepreco.py:97-98 | paying exactly the ceiling is DENTRO DO TETO (NORMAL) |
| Sobrepreco.CalcularRazao | pipelines/nfe/src/nfe_etapa18_sobrepreco.py:69-111 | TETO_DE_PRECO copies the refined maximum price, and the row is unclassified exactly when a price is missing or the ceiling is zero |
| TipoProduto.PrimeiraRegra | tipo_produto.py:54-60 | the category of the first rule with a matching keyword, OUTROS exactly when none matches |
| TipoProduto.CategorizarProduto | tipo_produto.py:9-60 | a non-string is OUTROS; otherwise the upper-cased text gets the category of the first matching rule of the twelve, OUTROS when none matches |
| TipoProduto.GotaAntesDeAmpola | tipo_produto.py:37-39 | a text mentioning both GOT and AMP is FRASCO, because the dropper rule comes first |
| PipelineConfig.DeepMerge | pipeline_config.py:27-38 | the keys are the union; base-only keys keep their value; override values win unless both sides are objects, which merge into an object |
| PipelineConfig.GetToggle | pipeline_config.py:60-68 | no keys gives the whole configuration; a missing key or a non-object on the way gives the default |
| PipelineConfig.GetToggleDefault | pipeline_config.py:60-68 | along an existing path the answer does not depend on the default; along a missing path it is the default |
| PipelineConfig.OverrideWins | pipeline_config.py:27-68 | a non-object toggle set in the user file reads back unchanged after merging with the defaults |
| PipelineConfig.DeepMergeSelf | pipeline_config.py:27-38 | merging a configuration with itself changes nothing |
| PipelineConfig.LoadPipelineConfig | pipeline_config.py:41-57 | a missing file, invalid JSON or a non-object document give the defaults; an unreadable file is an error; an object document is merged over the defaults |
| PipelineConfig.DefaultsAllOff | pipeline_config.py:13-57 | with no usable file every two-level toggle reads as off |
| MatchingManual.EanNormManual | src/nfe_matching_manual.py:36-44 | a key exists exactly when the text has 1 to 14 digits, after cutting 14 to the last 13, not all zero; it is 13 digits ending with them |
| MatchingManual.EanNormManualIdempotent | src/nfe_matching_manual.py:36-44 | a key is its own key |
| MatchingManual.ManualEstendeAutomatico | src/nfe_matching_manual.py:36-44 | the manual rule agrees with the automatic one wherever the latter gives a key, and also keys the short codes the automatic rule rejects (nfe_matching_anvisa.py lines 17-24 too) |
| MatchingManual.ChaveFlutuanteComoEscrito | src/nfe_matching_manual.py:38-43 | as written, a 13-digit barcode read as a float is rendered with ".0", so its key loses the first digit and gains a trailing zero |
| MatchingManual.ChaveFlutuanteDiverge | src/nfe_matching_manual.py:38-43 | on a float barcode the as-written key never equals the barcode itself, which is what the dtype-aware rule gives (nfe_etapa08_matching_manual.py lines 42-48 too) |
| MatchingManual.ChaveCelula | pipelines/nfe/src/nfe_etapa08_matching_manual.py:36-71 | the dtype-aware key: 13 non-zero-only digits when present, and on text cells the text rule |
| MatchingManual.ChaveFlutuanteComoInteiro | pipelines/nfe/src/nfe_etapa08_matching_manual.py:42-48 | the dtype-aware rule keys a whole float exactly like the same integer, and a 13-digit barcode as itself |
| MatchingManual.PrimeiraLinha | src/nfe_matching_manual.py:87-97 | the first base row whose given barcode column keys to the key, none exactly when no row does |
| MatchingManual.LookupChavesUnicas | src/nfe_matching_manual.py:96-97 | each key appears once in the lookup |
| MatchingManual.BuscaTres | src/nfe_matching_manual.py:87-97 | after the melt and `drop_duplicates(keep='first')` a key is answered from the first barcode column that has it |
| MatchingManual.LookupBusca | src/nfe_matching_manual.py:66-101 | the lookup answers every key with the first row of the first barcode column keying to it |
| MatchingManual.MetaManual | src/nfe_matching_manual.py:84 | the metadata are exactly the columns whose name does not start with "EAN" |
| MatchingManual.PrepararLookupManual | src/nfe_matching_manual.py:66-101 | no lookup exactly when a barcode column is missing; otherwise each key once, answered as the direct statement says with the as-written key (the same file's lines 150-154 too) |
| MatchingManual.AtualizarLinhaEfeito | src/nfe_matching_manual.py:189-208 | a row not matched stays as it is; after the update the product is present iff it was or the row matched; a matched row is tagged `manual_ean` |
| MatchingManual.Executar | src/nfe_matching_manual.py:104-248 | the frame is untouched without a product column, without missing products, without a lookup or without a barcode column; otherwise every row is updated in place and the temporary key column is gone |
| MatchingManual.ExecutarEfeito | src/nfe_matching_manual.py:179-208 | only matched rows change, and a row has a product afterwards iff it had one or it matched |
| MatchingManual.ExecutarForaDaMeta | src/nfe_matching_manual.py:202-204 | a cell the matched entry does not carry, other than the tag, keeps its value |
| MatchingManual.NenhumSucessoDepois | src/nfe_matching_manual.py:128-191 | after the step no row is still a pending match |
| MatchingManual.ExecutarIdempotente | src/nfe_matching_manual.py:104-248 | running the step twice is running it once |
| MatchingManual.LimparColunasTemporarias | src/nfe_matching_manual.py:251-279 | exactly the listed helper columns that are present are dropped; every other column keeps its cells |
| MatchingManual.ConverterTiposFinais | src/nfe_matching_manual.py:282-311 | the integer cast fails exactly when a listed column holds a fractional number; otherwise the listed columns hold their whole numbers or missing and every other cell is kept |
| MatchingManual08.Meta08Colunas | pipelines/nfe/src/nfe_etapa08_matching_manual.py:132-135 | an entry keeps exactly the barcode columns the base has, with their values, never a computed key, and every other column |
| MatchingManual08.PrepararLookup08 | pipelines/nfe/src/nfe_etapa08_matching_manual.py:93-163 | each key once, answered by the first row of the first barcode column keying to it under the dtype-aware rule |
| MatchingManual08.BlocoAusente | pipelines/nfe/src/nfe_etapa08_matching_manual.py:122-124 | a barcode column the base lacks contributes no entry |
| MatchingManual08.SemColunasSemEntradas | pipelines/nfe/src/nfe_etapa08_matching_manual.py:111-124 | a base without any barcode column gives an empty lookup |
| MatchingManual08.MesmasChaves | pipelines/nfe/src/nfe_etapa08_matching_manual.py:93-163 | on a base of text barcodes both stages find the same keys in the same column and row (nfe_matching_manual.py lines 66-101 too) |
| MatchingManual08.LookupFlutuante | pipelines/nfe/src/nfe_etapa08_matching_manual.py:42-48 | on a base holding one float barcode, stage 8 finds the barcode and the as-written earlier stage does not (nfe_matching_manual.py lines 38-43 too) |
| MatchingManual08.Executar08 | pipelines/nfe/src/nfe_etapa08_matching_manual.py:166-312 | one row per item; a base that could not be loaded leaves the frame unchanged; a row that had a product keeps every cell |
| MatchingManual08.BuscaMeta08 | pipelines/nfe/src/nfe_etapa08_matching_manual.py:132-163 | every answer carries the metadata of some base row |
| MatchingManual08.Executar08Auxiliares | pipelines/nfe/src/nfe_etapa08_matching_manual.py:235-238 | a computed key or melt column is never written into an item |
| RefinamentoNomes.Procurar | pipelines/nfe/src/nfe_refinamento_nomes.py:193 | a key's value is found exactly when some pair carries the key, and it is that pair's value |
| RefinamentoNomes.AplicarOverride | pipelines/nfe/src/nfe_refinamento_nomes.py:233-250 | the substitution of the first rule whose every pattern occurs in the upper-cased description, or the current name when no rule applies |
| RefinamentoNomes.Manter | pipelines/nfe/src/nfe_refinamento_nomes.py:171-182 | the kept words are words of the input, and exactly the words that are not isolated letters survive, in order |
| RefinamentoNomes.LimparLetras | pipelines/nfe/src/nfe_refinamento_nomes.py:164-182 | non-text gives ""; text gives single-spaced words whose non-letter words are those of the input, in order |
| RefinamentoNomes.ManterSemPermitidos | pipelines/nfe/src/nfe_refinamento_nomes.py:174-180 | without permitted terms the result is exactly the words outside the letter set |
| RefinamentoNomes.LetraJulgadaPeloOriginal | pipelines/nfe/src/nfe_refinamento_nomes.py:177 | a letter is judged by the original previous word, not the previous word kept |
| RefinamentoNomes.Expandir | pipelines/nfe/src/nfe_refinamento_nomes.py:185-195 | non-text or an empty mapping leaves the cell as it is; text stays text |
| RefinamentoNomes.ExpandirPalavras | pipelines/nfe/src/nfe_refinamento_nomes.py:185-195 | on single-spaced words made of word characters, with keys made of word characters, every word becomes `abbreviation_mapping.get(word.upper(), word)` and nothing else changes |
| RefinamentoNomes.ExpandirSemAbreviacao | pipelines/nfe/src/nfe_refinamento_nomes.py:192-195 | a name without any abbreviation as a whole word is left as it is |
| RefinamentoNomes.ExpandirPalavra | pipelines/nfe/src/nfe_refinamento_nomes.py:192-195 | a name that is exactly an abbreviation becomes its expansion, looked up in upper case |
| RefinamentoNomes.Colapsar | pipelines/nfe/src/nfe_refinamento_nomes.py:216-222 | the result keeps the first and last word, has no word equal to the next, and holds only words of the input |
| RefinamentoNomes.ColapsarFixo | pipelines/nfe/src/nfe_refinamento_nomes.py:216-222 | a list without adjacent repetitions is kept as it is |
| RefinamentoNomes.PodarDe | pipelines/nfe/src/nfe_refinamento_nomes.py:224-228 | the result neither starts nor ends with DE, keeps no repetitions, and a list with clean ends is unchanged |
| RefinamentoNomes.Reestruturar | pipelines/nfe/src/nfe_refinamento_nomes.py:198-230 | non-text gives ""; fewer than two words are kept as they are; otherwise a normalised name without adjacent repetitions or DE at the ends |
| RefinamentoNomes.ReestruturarFixo | pipelines/nfe/src/nfe_refinamento_nomes.py:210-230 | a clean name not ending in a chemical term is left as it is |
| RefinamentoNomes.ReestruturarQuimico | pipelines/nfe/src/nfe_refinamento_nomes.py:211-212 | a name ending in a chemical term becomes that term, DE and the rest |
| RefinamentoNomes.ReestruturarPalavras | pipelines/nfe/src/nfe_refinamento_nomes.py:206-230 | the restructured name is the reordered, collapsed and trimmed word list, joined |
| RefinamentoNomes.AplicarRegrasNegocio | pipelines/nfe/src/nfe_refinamento_nomes.py:253-282 | non-text gives ""; the first multi-key rule whose keys all occur wins, then the first conditional rule, then the first single-key rule |
| RefinamentoNomes.RegrasSoSubstituem | pipelines/nfe/src/nfe_refinamento_nomes.py:253-282 | the name comes back as it is or as one of the configured substitutions |
| RefinamentoNomes.CorrigirIdempotente | pipelines/nfe/src/nfe_refinamento_nomes.py:411 | the replacement is a single lookup: when no correction is itself a key, correcting twice is correcting once |
| RefinamentoNomes.LimpezaFinal | pipelines/nfe/src/nfe_refinamento_nomes.py:423-428 | text becomes the first min(100, its length) characters of the collapsed and trimmed text, with plain spaces only and a clean start; non-text becomes missing |
| RefinamentoNomes.LimpezaFinalCurta | pipelines/nfe/src/nfe_refinamento_nomes.py:426-427 | a cleaned name that fits in 100 characters also has a clean end |
| RefinamentoNomes.CorteDeixaEspaco | pipelines/nfe/src/nfe_refinamento_nomes.py:426-427 | the cut to 100 characters comes after the trim, so it can leave a trailing space |
| RefinamentoNomes.Estagio | pipelines/nfe/src/nfe_refinamento_nomes.py:312-416 | from the letter stage on, text stays text, and the letter stage always yields text |
| RefinamentoNomes.Depois | pipelines/nfe/src/nfe_refinamento_nomes.py:312-416 | after the letter stage the name is text |
| RefinamentoNomes.Cascata | pipelines/nfe/src/nfe_refinamento_nomes.py:312-416 | a name already in the master set is untouched, and the result is always text |
| RefinamentoNomes.CongeladoAteOFim | pipelines/nfe/src/nfe_refinamento_nomes.py:317 | once a stage leaves a name in the master set, every later stage keeps it (the same file's lines 335, 352, 372, 389, 406 too) |
| RefinamentoNomes.CongeladoAte | pipelines/nfe/src/nfe_refinamento_nomes.py:317 | a name the master set holds after stage k is still the name after any later stage n, since every masked stage leaves matched rows alone |
| RefinamentoNomes.Percentual | pipelines/nfe/src/nfe_refinamento_nomes.py:134-157 | 0 for an empty frame, between 0 and 100, 100 exactly when every row matches and 0 exactly when none does |
| RefinamentoNomes.Refinar | pipelines/nfe/src/nfe_refinamento_nomes.py:300-428 | the rows not named DELETAR, in order, each with NOME_PRODUTO_LIMPO set to the cleaned result of the cascade |
| RefinamentoNomes.ExecutarRefinamento | pipelines/nfe/src/nfe_refinamento_nomes.py:289-450 | a KeyError when NOME_PRODUTO is missing, or when the description is missing and some row reads it; otherwise the refined frame |
| RefinamentoNomes.RefinamentoSemDeletar | pipelines/nfe/src/nfe_refinamento_nomes.py:302 | no DELETAR row survives |
| RefinamentoNomes.RefinamentoContagem | pipelines/nfe/src/nfe_refinamento_nomes.py:302 | exactly the DELETAR rows go |
| RefinamentoNomes.RegistradoSoLimpo | pipelines/nfe/src/nfe_refinamento_nomes.py:303 | a row whose extracted name is registered only goes through the final cleanup (the same file's lines 423-428 too) |
| UtilsLimpeza.LimparColunasDuplicadas | src/modules/utils_limpeza.py:9-38 | exactly the columns whose names contain .1, .2 or .3 go; every other column keeps its place and its cells |
| UtilsLimpeza.MergeSeguro | src/modules/utils_limpeza.py:41-126 | a KeyError exactly when a key column is missing; otherwise the left columns and the non-conflicting right ones, with no _DROP or duplicate-looking name |
| UtilsLimpeza.MergeRowsFit | src/modules/utils_limpeza.py:110 | every merged row has exactly the left columns and the extra ones |
| UtilsLimpeza.LeftMergeRowCount | src/modules/utils_limpeza.py:110 | a left merge against distinct keys keeps one row per left row, with that row's cells in every left column |
| UtilsLimpeza.LeftMergeKeys | src/modules/utils_limpeza.py:110 | a left merge neither loses nor invents a value of a left column |
| UtilsLimpeza.ValidarIntegridadeColunas | src/modules/utils_limpeza.py:129-171 | true exactly when no column is duplicate-looking, ends in _DROP or is entirely missing; an error exactly when asked to raise and a problem is found |
| UnificacaoMatching.NormalizarColunas | src/nfe_unificacao_matching.py:95-107 | every column name becomes its accent-free, upper-cased, stripped form, and each cell stays under its column's new name |
| UnificacaoMatching.NormalizarIdempotente | src/nfe_unificacao_matching.py:95-107 | normalising the column names twice renames nothing more |
| UnificacaoMatching.Contribuicao | src/nfe_unificacao_matching.py:120-131 | a base contributes exactly when it is present and has PRODUTO and PRINCIPIO ATIVO after normalisation, and then contributes those two columns of every row |
| UnificacaoMatching.EmpilhadasColunas | src/nfe_unificacao_matching.py:138-139 | every stacked row carries exactly the two required columns |
| UnificacaoMatching.SemNulosUnicos | src/nfe_unificacao_matching.py:139-143 | dropping missing products and duplicates keeps one row per product, exactly the non-missing products of the input |
| UnificacaoMatching.CriarBaseMasterUnificada | src/nfe_unificacao_matching.py:110-148 | ValueError exactly when neither base contributes; otherwise the master table has one row per non-missing product of the contributing bases |
| UnificacaoMatching.VerificarMatches | src/nfe_unificacao_matching.py:151-159 | the count of rows whose column is in the master set: a missing column is a KeyError, no match iff no row is in the set, all iff every row is |
| UnificacaoMatching.Percentual | src/nfe_unificacao_matching.py:157 | zero on an empty frame, otherwise between 0 and 100, and 100 or 0 when all or none match |
| UnificacaoMatching.GerarRelatorioFinal | src/nfe_unificacao_matching.py:256-307 | exactly the rows whose name is outside the master set, in their order; a missing column is a KeyError |
| UnificacaoMatching.RelatorioComplementa | src/nfe_unificacao_matching.py:151-159 | the matched count and the reported rows add up to the frame (the same file's line 264 too) |
| UnificacaoMatching.RegrasSemEfeito | src/nfe_unificacao_matching.py:169-192 | on a matched item, or when no rule fires, the name stays |
| UnificacaoMatching.RegrasUltimaVence | src/nfe_unificacao_matching.py:184-192 | on an unmatched item the last rule that fires decides the name |
| UnificacaoMatching.AplicarRegrasEspecificas | src/nfe_unificacao_matching.py:162-198 | a missing column is an error; matched rows and every other column are untouched; an unmatched row's name follows the six rules in order |
| UnificacaoMatching.RegrasEfeito | src/nfe_unificacao_matching.py:174-192 | an unmatched row gets the product of the last of the six rules whose patterns its description contains |
| UnificacaoMatching.RegrasSemDisparo | src/nfe_unificacao_matching.py:184-192 | a row on which none of the six rules fires is unchanged |
| UnificacaoMatching.AplicarFuzzyDict | src/nfe_unificacao_matching.py:201-218 | an empty dictionary returns the frame; otherwise a missing column is an error, matched rows stay and unmatched names are replaced through the dictionary |
| UnificacaoMatching.FuzzyDuasVezes | src/nfe_unificacao_matching.py:404-416 | with a dictionary whose targets are not keys of unmatched names, the second pass changes nothing |
| UnificacaoMatching.FiltrarNaoMedicinaisFinal | src/nfe_unificacao_matching.py:221-253 | exactly the rows whose name contains none of the 26 patterns, case-insensitively, in order; a missing column is a KeyError |
| UnificacaoMatching.FiltroParticiona | src/nfe_unificacao_matching.py:221-253 | kept and removed rows together are the input, and filtering again removes nothing |
| UnificacaoMatching.Etapas | src/nfe_unificacao_matching.py:392-419 | steps 4 to 9 keep the columns, never add rows, and report exactly the final rows outside the master set |
| UnificacaoMatching.ProcessarComMaster | src/nfe_unificacao_matching.py:382-419 | ValueError exactly when NOME_PRODUTO_LIMPO or descricao_produto is missing; otherwise the steps' result |
| UnificacaoMatching.ProcessarUnificacaoMatching | src/nfe_unificacao_matching.py:337-435 | the master is built first, so an error comes from it or from a missing column, and always as ValueError |
| UnificacaoVigencias.Preparar | pipelines/anvisa_base/src/modules/unificacao_vigencias.py:29-34 | the rows sorted stably by product and start, a permutation of the input |
| UnificacaoVigencias.PrepararOrdenada | pipelines/anvisa_base/src/modules/unificacao_vigencias.py:33 | an already sorted table is left as it is |
| UnificacaoVigencias.ColunasVerificadas | pipelines/anvisa_base/src/modules/unificacao_vigencias.py:52-57 | the configured change columns the table has; every other column when it has none of them |
| UnificacaoVigencias.BlocoIdCresce | pipelines/anvisa_base/src/modules/unificacao_vigencias.py:61-65 | block ids never decrease, and two rows share one iff no block starts after the first up to the second |
| UnificacaoVigencias.BlocosParticao | pipelines/anvisa_base/src/modules/unificacao_vigencias.py:61-65 | the runs split at every row that changes the product or a checked cell, NaN counting as a change |
| UnificacaoVigencias.GruposSaoBlocos | pipelines/anvisa_base/src/modules/unificacao_vigencias.py:65-87 | the groupby groups of the cumulative-sum ids are exactly the runs |
| UnificacaoVigencias.PrimeiroNaoNulo | pipelines/anvisa_base/src/modules/unificacao_vigencias.py:83 | `first` is the first non-missing cell of the column, missing if there is none |
| UnificacaoVigencias.UltimoFim | pipelines/anvisa_base/src/modules/unificacao_vigencias.py:84 | `last` on VIG_FIM is the last end that is not NaT |
| UnificacaoVigencias.BlocoConstante | pipelines/anvisa_base/src/modules/unificacao_vigencias.py:62-64 | inside a block every row has the first row's product and checked cells, none missing past the first row |
| UnificacaoVigencias.ColapsarBloco | pipelines/anvisa_base/src/modules/unificacao_vigencias.py:83-87 | a collapsed block keeps its product, first start and checked cells, and takes the last non-NaT end |
| UnificacaoVigencias.AgregarPorBlocos | pipelines/anvisa_base/src/modules/unificacao_vigencias.py:83-87 | the aggregation yields one collapsed row per block, in block order |
| UnificacaoVigencias.Finalizar | pipelines/anvisa_base/src/modules/unificacao_vigencias.py:105-112 | every row gets its price id back from its product and start, and nothing else changes |
| UnificacaoVigencias.UnificarPorBloco | pipelines/anvisa_base/src/modules/unificacao_vigencias.py:117-156 | result row j is block j collapsed: its product, first start, last non-NaT end, first non-missing cells and a rebuilt price id |
| UnificacaoVigencias.UnificarMaximal | pipelines/anvisa_base/src/modules/unificacao_vigencias.py:39-68 | consecutive rows of the result always differ in product or in a checked column |
| UnificacaoVigencias.UnificarIdempotente | pipelines/anvisa_base/src/modules/unificacao_vigencias.py:117-156 | merging a merged table changes nothing |
| UnificacaoVigencias.UnificarOrdenada | pipelines/anvisa_base/src/modules/unificacao_vigencias.py:29-34 | the result is sorted by product and start |
| UnificacaoVigencias.UnificarCobre | pipelines/anvisa_base/src/modules/unificacao_vigencias.py:70-90 | every input row is represented by an output row of its product with its checked values |
| Vencimento.Hifenizar | src/nfe_vencimento.py:36-41 | eight digits become `YYYY-MM-DD` with every digit kept in place around the two hyphens |
| Vencimento.TextoParaData | src/nfe_vencimento.py:30-41 | no text for the parser exactly when the stripped cell is one of the "no date" markers; eight digits are handed over hyphenated |
| Vencimento.LimparData | src/nfe_vencimento.py:12-55 | a "no date" marker gives no date; a date given is a valid calendar date, not a placeholder, and is what the parser read; every valid non-placeholder parse is kept |
| Vencimento.LimparDataYyyymmdd | src/nfe_vencimento.py:35-49 | a date written as `YYYYMMDD` comes back as itself unless it is one of the three placeholders |
| Vencimento.InvalidosSemData | src/nfe_vencimento.py:33 | every "no date" marker yields no date whatever the parser does |
| Vencimento.CalcularMetricas | src/nfe_vencimento.py:58-86 | total life and days left are date differences; used life is clipped at 0 and exists iff both its dates do; the share exists iff total life is positive and times total life gives used life |
| Vencimento.MetricasSomam | src/nfe_vencimento.py:74-83 | used life plus days left is total life when invoiced after manufacture, and the share is at most 1 iff the item had not expired at the invoice |
| Vencimento.Selecionar | src/nfe_vencimento.py:118-125 | `np.select` with the extra override: the first condition that holds wins, each category exactly under its condition, INDETERMINADO otherwise or when forced |
| Vencimento.CategoriasSignificado | src/nfe_vencimento.py:89-98 | corrected: expired items not forced undetermined are VENCIDO, the two near-expiry categories mean under 365 days left, and acceptable means under 75% used or at least 365 days left |
| Vencimento.CategoriasSignificadoComoEscrito | src/nfe_vencimento.py:109-125 | as written: the same reading, but acceptable needs under 75% used or more than 365 days left |
| Vencimento.ComoEscritoLacuna365 | src/nfe_vencimento.py:110-112 | as written, an item with 75% of its life used and exactly 365 days left falls through every condition to INDETERMINADO |
| Vencimento.CategorizarSempreDecide | src/nfe_vencimento.py:89-98 | corrected: with positive total life and no more than ten years past expiry, an item is never undetermined |
| Vencimento.CategorizarDifereSoEm365 | src/nfe_vencimento.py:110-112 | the corrected and the as-written rules disagree exactly on items at or above 75% used with exactly 365 days left, which the correction calls acceptable |
| Vencimento.VencDe | src/nfe_vencimento.py:161-205 | the expiry row of one item: its key text, the three cleaned dates, the metrics of those dates and the as-written category |
| Vencimento.VencDeCategoria | src/nfe_vencimento.py:89-125 | every expiry row's category agrees with its own dates and metrics as the as-written rule reads them |
| Vencimento.Deduplicadas | src/nfe_vencimento.py:185-190 | one row per key, every key kept, every row an input row, and a frame without duplicates untouched |
| Vencimento.DeduplicadasPrimeira | src/nfe_vencimento.py:190 | the row kept for a key is the first row with it |
| Vencimento.Particionar | src/nfe_vencimento.py:192-215 | the base table keeps exactly the input columns other than the derived ones, with each row's cells; the expiry table holds one expiry row per base row |
| Vencimento.ProcessarVencimentoNfe | src/nfe_vencimento.py:135-225 | ValueError exactly when a needed column is missing; otherwise the partition of the deduplicated rows |
| Vencimento.VencChaveDaBase | src/nfe_vencimento.py:186-215 | each expiry row's id is its base row's key text, and no two base rows share a key |
| Vigencias.PrimeiraPassagemUltimoSeparador | aa.py:258 | on a one-line text, turning ',' into '.' and then deleting every '.' that another '.' follows leaves the last separator as the only decimal point and deletes every separator before it |
| Vigencias.PrimeiraPassagemSemSeparador | aa.py:258 | a text without ',' or '.' passes the first cleaning unchanged |
| Vigencias.SoNumericos | aa.py:291 | only digits, ',', '.' and '-' remain, and a text made only of them is kept as it is |
| Vigencias.Rfind | aa.py:292 | the last position of the character, -1 exactly when it does not occur |
| Vigencias.NormalizarNumero | aa.py:291-293 | the normalised text holds no ',' and only digits, '.' and '-' |
| Vigencias.NormalizarFiltrado | aa.py:292-293 | with both marks the later one is the decimal point and the other is deleted; a lone ',' becomes '.'; without ',' the text is unchanged |
| Vigencias.MarcaDecimal | aa.py:292-293 | when the last separator occurs once, it becomes the only decimal point and every earlier separator is deleted |
| Vigencias.NormalizarNumeroFixo | aa.py:291-293 | plain digits with '.' and '-' are read as they are, so normalising twice is normalising once |
| Vigencias.ParseNumSeguro | aa.py:289-295 | a missing value stays missing; otherwise the value is whatever `float` makes of the normalised text |
| Vigencias.IdProdutoInjetivo | aa.py:253 | two rows with the same product id have the same trimmed registration and GGREM code when no registration holds '-' |
| Vigencias.IdPrecoInjetivo | aa.py:284 | the price id determines both its product id and its start date |
| Vigencias.UpperIdPreco | aa.py:284-313 | upper-casing a price id upper-cases its product id and leaves the date digits alone |
| Vigencias.DataRef | aa.py:254 | the reference date exists exactly when the year and month make a timestamp, and is then the first of that month |
| Vigencias.FimPadrao | aa.py:276-278 | the default end is 15 April of the year of the first 1 April strictly after the start |
| Vigencias.Arred2 | aa.py:301 | rounding to cents moves a price by at most half a cent |
| Vigencias.Arred2Idempotente | aa.py:301 | rounding a rounded price changes nothing |
| Vigencias.Preencher | aa.py:300-303 | the 20% price is present iff the 20% or the 0% price is; a present 20% price is kept; otherwise it is the 0% price times 1.25 within half a cent |
| Vigencias.LimparPrecos | aa.py:297-303 | the four prices are cleaned and the two 20% prices back-filled from the cleaned 0% prices; nothing else of the row changes |
| Vigencias.PrepararTodas | aa.py:253-254 | ValueError exactly when some row's year and month make no timestamp; otherwise every row is prepared in place |
| Vigencias.LinhaDoIntervalo | aa.py:264-268 | every row of the sorted frame lies in an interval opened by a start row of its product at or before it, with the same six tracked values |
| Vigencias.IniciosOrdenados | aa.py:261-272 | the start rows of a frame sorted by product and month are sorted the same way |
| Vigencias.Proximo | aa.py:274 | the group-wise `shift(-1)`: the first later row of the same product, none exactly when the product has no later row |
| Vigencias.ComFins | aa.py:274-281 | every interval receives its end and keeps its product, price id and start |
| Vigencias.Contiguas | aa.py:274-281 | on distinct sorted intervals each one ends the day before its product's next interval starts and not before its own start, a product's last interval ends on the default end, and no two intervals of a product overlap |
| Vigencias.Ultima | aa.py:308 | the product's row with the latest start, the last such row on ties; none exactly when the product has no row |
| Vigencias.Padronizar | aa.py:307-310 | every row takes the descriptive values of its product's latest row and keeps its identity |
| Vigencias.PadronizarUniforme | aa.py:307-310 | after standardisation all rows of a product carry the same descriptive values |
| Vigencias.MaiusculasTodas | aa.py:312-313 | every text is upper-cased, the product id with it, and the price id stays made of the product id and start |
| Vigencias.Deduplicar | aa.py:317-320 | one row per (product, start), the same set of keys as the input, every row an input row, sorted by product, start and decreasing completeness |
| Vigencias.DeduplicarMaisCompleta | aa.py:317-319 | the row kept for a (product, start) is at least as complete as every input row with that key |
| Vigencias.DedupPar | aa.py:318-319 | of two equally complete rows with one key, the first is kept |
| Vigencias.ProcessarVigencias | aa.py:246-322 | as written: ValueError exactly when some reference month makes no timestamp; otherwise one row per (product, start), sorted, each price id made of its product id and start |
| Vigencias.ProdutosPreservadosComoEscrito | aa.py:246-322 | as written, the product of every input row, upper-cased, has an interval in the result |
| Vigencias.FimAntesDoInicio | aa.py:274-319 | as written, two equally complete rows of one product and start with different tracked values leave one interval whose end precedes its start |
| Vigencias.ProcessarVigenciasCorrigida | aa.py:246-322 | with the ends set after deduplication: the same error condition, one row per (product, start), sorted by product and start |
| Vigencias.VigenciasContiguas | aa.py:274-281 | in the corrected table every interval ends the day before its product's next one, a product's last interval ends on the default end, and a product's intervals never overlap |
| Vigencias.IdPrecoUnico | aa.py:284-319 | in the corrected table no two rows share a price id |
| Vigencias.CorrigidaSoMudaFins | aa.py:274-319 | the corrected table differs from the as-written one only in the ends |
| Vigencias.ProdutosPreservados | aa.py:246-322 | in the corrected table the product of every input row, upper-cased, has an interval |

## Left out

- **Orchestration and plumbing.** Loading, exporting and the zip and CSV I/O of every stage are not modelled, along with the progress bars, timing and printed statistics. This covers:
  - `carregar_dados_etapa13`, `carregar_recursos`, `carregar_recursos_unificacao`, `carregar_schema_referencia` and `carregar_resultados_ia`;
  - every `exportar_*` and `salvar_*` function, `exportar_zip_fast` and `garantir_base_esfera`;
  - the report's top-10 and value aggregates.

  These are drivers, not logic.
- **Thin drivers whose steps are modelled one by one.** The drivers are `processar_matching_apresentacao_unica`, `processar_apresentacao`, `processar_dosagem` and `processar_tipo_produto`. `Sobrepreco` leaves out `gerar_resumos` and `exportar_dataframe`.
- **Etapa14Ia.** The language-model call is not modelled: `processar_com_gemini`, its prompt, batching, CSV parsing of the answers and the sleep between batches. The model receives the results as a parameter, and the API failure is `Api(None)`.
- **Etapa14Ia.AplicarCorrecoesLaboratorio.** The loop that tries four encodings on the dictionary file is collapsed to one `Option`: the dictionary was read, or it was not.
- **Etapa14Ia.ProcessarExtracaoIa.** Uses the merge as written (`JuntarResultadosIa`). The stage's catch-all `except` that returns None is modelled as the `Err` it would report.
- **Etapa14Ia.Medicinais.** Matches the excluded names by upper-casing both sides. It does not model the special case folds of `re.IGNORECASE` beyond Latin-1.
- **Etapa14Ia.Truncar.** Its whitespace is `Text.IsSpace`, which is Python's whitespace up to U+00FF. The wider Unicode spaces (U+1680, U+2000..U+200A, U+2028, U+2029, U+202F, U+205F, U+3000) are not stripped.
- **Text.IsDigit, Text.IsLetter, Text.IsWordChar, Text.IsSpace, Text.UpperChar.** Python's Unicode-aware `\d`, `\w`, `\s`, `\b`, `str.isdigit`, `str.split`, `str.strip` and `str.upper` are followed on the characters up to U+00FF. There `\s` includes U+001C..U+001F, U+0085 and the no-break space U+00A0, and `\w` includes ª, µ, º, ², ³, ¹ and ¼..¾. Characters beyond U+00FF are not modelled: other scripts, other spaces and digits of other scripts. `str.isdigit` also accepts ², ³ and ¹, which `IsDigit` (the `\d` class) does not. Neither are upper cases that leave Latin-1 or have several characters: µ becomes Greek Μ, ÿ becomes Ÿ and ß becomes "SS" in Python, while `UpperChar` keeps all three.
- **Scan.WholeWords.** Empty dictionary keys in the whole-word alternation patterns are not modelled. The pipeline's dictionaries have none.
- **MatchingHibrido.MelhorMatch.** The rapidfuzz scorers (`token_set_ratio`, `token_sort_ratio`, `QRatio`) are parameters with values in [0, 100]. Floating point is modelled by exact reals.
- **MatchingHibrido.MelhorMatch — tie order.** Candidates with equal scores are ranked by the order in which `list(candidate_indices)` lists the candidate set. That order is CPython's set iteration order, which depends on hashes and insertion history. The model takes it as a parameter `ordem`, constrained only to list each pooled row once (`Enumera`). So the winner among tied candidates is proved to be the first in that order, but which row that is is not computed.
- **Particionamento.Preparar.** The MD5 hash is a parameter `hash`.
- **ConsolidacaoFinal.RemoverAcentosTexto, ApresentacaoUnica.CriarBaseMestreCompleta, ClassificacaoTerapeutica.Padronizar.** NFKD and NFD decomposition are parameters.
- **NfeLimpeza.LimparColunaQuantidade.** `pd.to_numeric` is a parameter `parse`, and the integer cast truncates toward zero.
- **Vencimento.LimparData.** The pandas date parser is a parameter `parse`.
- **Vencimento.LimparData — time of day.** Dates are calendar days (`Dates.Stamp`, `Dates.Date`). The source masks the placeholders only when the parsed value equals midnight of 2000-01-01, 2010-01-01 or 2020-01-01 (src/nfe_vencimento.py:47-49). So "2000-01-01 10:00" survives there, but the model masks it, because it sees only the day.
- **Vencimento.CalcularMetricas — time of day.** The three spans are whole-day differences. The source takes `Timedelta.dt.days`, which floors a span that carries hours. A validity of 2024-01-10 and an emission at "2024-01-01 14:00" give 8 remaining days there, and 9 in the model.
- **PrecosVigentes.JuntarPrecosVigentes — time of day.** `data_emissao` keeps its time of day when it is parsed (src/nfe_matching_anvisa.py:282), and `VIG_FIM` is a midnight. An emission at 14:00 on the last day of a period fails `data_emissao <= VIG_FIM` at line 342, but the model compares days and keeps it. The same holds for `PrecosVigentes.AsOf`, `PrecosVigentes.ValidoComoEscrito` and the lemmas built on them.
- **PrecoComoEscritoVigente.** It is stated on calendar days, so it does not cover an emission later in the day than the period's end. See the line above.
- **PadronizacaoUnidades.Padronizar.** The log10 score of the heuristics is an abstract real input, and `MAPA_UNIDADES` is the function parameter `f`.
- **Dictionaries and rule tables.** These are parameters, not transcribed:
  - Apresentacao: `PADRONIZACOES`, the stopword regex and the rewrite chain of `limpar_apresentacao_final` (see also the Apresentacao.NormalizarApresentacao line below);
  - NfeLimpeza: `SUBSTITUICOES`;
  - Produto: the product dictionaries;
  - CorrecoesOrtograficas: the correction dictionaries;
  - RefinamentoNomes: the JSON rule files;
  - ExtracaoNomes and Separacao: the term lists.
- **Apresentacao.NormalizarApresentacao.** Two parts of the normaliser are unconstrained function parameters of `Regras`. `blocos` stands for `PADRAO_BLOCO.finditer` (src/modules/apresentacao.py:118-122, 376), so the model does not say which texts hold dosage blocks or where they lie. `posMescla` stands for the substitutions after the merge (lines 383-436), so the model does not say what they rewrite. The contract therefore states only the dispatch, the prepared text when no block is found, and the whitespace normalisation of the merged text.
- **Python's `str()` of a non-text cell.** This is the parameter `repr`.
- **Esfera.CnpjKey.** The `cpf_cnpj` cell is taken as the text the file holds. `read_csv` at pipelines/nfe/src/nfe_etapa20_classificacao_esfera.py:89 has no `dtype`, so a column of digits comes in as integers, or as float64 once a cell is missing. `_normalize` then renders a float as "12345678000190.0", whose key is the 15 digits "123456780001900", and the join at lines 127-133 finds no registry row. The model does not represent that rendering.
- **CnpjKeyShape.** Stated over the text cell above. It does not cover the float rendering, whose trailing ".0" adds a digit to the key.
- **Laboratorio.ProcessarLaboratorio.** `.str.upper()` at src/modules/laboratorio.py:34 raises AttributeError on a column with no text at all (all missing or all numeric). That path is not modelled: the model reads such a column cell by cell.
- **Sobrepreco.Classificar.** The bands are compared on exact reals. In binary floating point a ratio at a band edge can fall into the neighbouring band: 0.3 / 3 is 0.09999999999999999, which the source puts in MUITO ABAIXO and the model in DENTRO DO TETO (NORMAL).
- **Sobrepreco.Razao.** The division is exact. The source's float64 quotient can differ from it in the last bit, which matters at the band edges above.
- **Vigencias.Arred2.** Rounds an exact decimal half to even. `Series.round(2)` rounds the binary double, so a value printed as x.xx5 may round the other way.
- **Vigencias.Preencher.** Multiplies by 1.25 exactly before rounding, so it inherits the `Vigencias.Arred2` gap above.
- **JSON values that are not text in the rule files.** Not modelled: every rule field is text.
- **JuntarPrecosVigentes — candidate tie order.** Among the candidate ids of an item, the model takes them in list order, and among periods with the same start it takes the last row. The source picks the "first" row after single-key `sort_values` calls that are not stable, so its tie order is unspecified.
- **PrincipioAtivo.MaisFrequente.** `Series.mode` lists equally frequent values in sorted order. Values of different kinds (text, number, flag) are ranked in a fixed arbitrary order (`ValorAntes`), where pandas would compare them or fail.
- **CorrecoesOrtograficas.PadronizarCombinacoes.** Components that differ only in case sort equal under `lower()`. Python then keeps set iteration order, which cannot be known; the model breaks such ties by code point.
- **Ordenacao.Ordenar.** `sort_values` is modelled as a stable sort. Where the source's sort is not stable, the tie order is assumed.
- **CorrecoesOrtograficas.CorrigirDescricoes.** The `.str` accessor raises AttributeError on a column with no text at all (an all-missing or all-numeric column). That path is not modelled: such a column is read cell by cell, and non-text cells become missing.
- **PrincipioAtivo.PreencherNaoEspecificado.** Does not model that `.str` AttributeError either.
- **ConsolidacaoFinal.AplicarMapeamento.** Requires the rename to be injective on the frame's columns (`Injetiva`). A rename that makes two columns share a name gives a frame with a repeated column, which a `Table` cannot represent.
- **GrupoTerapeutico.MapearGrupos.** Stops before the final rename of the group column. When the frame already has a column of the target name, pandas keeps both under one name, which a `Table` cannot represent.
- **Unificar — rows without a start date or product id.** Such rows (NaT or NaN) are excluded by `requires Datados`: pandas sorts NaT last, and `strftime` gives NaN for their `id_preco`. `agg_dict` also moves the `VIG_FIM` column to the end of the frame. The model keeps the input's column order.
- **PipelineConfig.** The cache of the loaded configuration is not modelled: the configuration is a value, so repeated lookups see the same one by construction.
- **Ajuste inflacionário.** The inflation adjustment of stage 19 and the memory tuning are outside the modelled core.

## Findings

| source | as written | input that shows it | evidently intended | confidence | as-written member | corrected member |
|---|---|---|---|---|---|---|
| aa.py:274-319 | `VIG_FIM` is computed from the next row (line 274) before the duplicate rows are dropped (line 319) | two equally complete rows of one product in one month that differ in a tracked value: the first row's period ends the day before its own start | each period ends the day before the next distinct period starts | not executed | Vigencias.FimAntesDoInicio, Vigencias.ProcessarVigencias | Vigencias.VigenciasContiguas, Vigencias.ProcessarVigenciasCorrigida |
| src/nfe_matching_anvisa.py:342-344 | the filter `VIG_FIM.isna() \| data <= VIG_FIM` also keeps candidate ids that have no period, so the first row per item may carry no price | ids ["A","B"], emission 2024-01-10, only B has a period (2024-01-01 onward, price 10.0): the item gets a missing price | the item gets the price of the period in force, 10.0 | not executed | PrecosVigentes.ComoEscritoPerdePreco, PrecosVigentes.JuntarPrecosVigentes | PrecosVigentes.PrecoDoItemVigente, PrecosVigentes.JuntarPrecosVigentesCorrigida |
| src/nfe_matching_manual.py:36-44 | a float cell is rendered as text with its ".0"; once the non-digits are removed the barcode has 14 digits and is read as a GTIN-14, so only its last 13 digits are kept | the cell 7891234567890.0 gives the key "8912345678900" instead of "7891234567890" | a whole-number float gives the same key as the integer code | not executed | MatchingManual.ChaveFlutuanteDiverge, MatchingManual.ChaveCelulaComoEscrito | MatchingManual.ChaveFlutuanteComoInteiro, MatchingManual.ChaveCelula |
| src/modules/produto.py:388-391 | after every "+" is spaced as " + ", the rule that strips a leading "+" removes only one, so a second leading "+" survives | "++X" becomes "+ X" | no leading "+" remains | not executed | Produto.MaisInicialSobra, Produto.LimparFinal | Produto.LimparFinalCorrigida, Produto.CorrigirESegmentarCorrigida |
| src/nfe_vencimento.py:110-112 | one branch tests `dias > 365` and the other `dias < 365`, so exactly 365 days falls through | 75% of the shelf life used and exactly 365 days left: INDETERMINADO | ACEITAVEL, as for every other remaining time above the threshold | not executed | Vencimento.ComoEscritoLacuna365, Vencimento.CategorizarComoEscrito | Vencimento.CategorizarSempreDecide, Vencimento.Categorizar |
| src/modules/laboratorio.py:42-44 | `.astype(str)` runs before the missing-value check, so a missing laboratory becomes the text "nan" and then "NAN" | a missing laboratory cell gives "NAN" | a missing laboratory stays missing | not executed | Laboratorio.AusenteViraNan, Laboratorio.LimparCelula | Laboratorio.LimparCelulaCorrigida |
| pipelines/nfe/src/nfe_etapa09_separacao.py:79-86 | the summary divides by the number of rows | an empty frame with a PRODUTO column raises ZeroDivisionError | an empty frame separates into two empty flows | not executed | Separacao.SepararVazioFalha, Separacao.SepararComoEscrito | Separacao.SepararParticiona, Separacao.SepararFluxos |
| pipelines/nfe/src/nfe_etapa16_finalizacao_pipeline.py:258-268 | the summary divides by the number of rows | an empty frame with a PRODUTO column raises ZeroDivisionError | an empty frame finishes as empty outputs | not executed | Finalizacao.FinalizarVazioFalha, Finalizacao.FinalizarComoEscrito | Finalizacao.ParticionarParticiona, Finalizacao.Finalizar |
| pipelines/nfe/src/nfe_consolidacao_final.py:326-331 | the summary divides by the number of rows, and so does the cleaning summary at lines 386-390 | an empty frame with a PRODUTO column raises ZeroDivisionError | an empty frame consolidates to an empty frame | not executed | ConsolidacaoFinal.ProcessarVazioFalha, ConsolidacaoFinal.ConsolidarComoEscrito | ConsolidacaoFinal.ConsolidarELimpar, ConsolidacaoFinal.Consolidar |
| pipelines/nfe/src/nfe_etapa14_extracao_ia.py:366-378 | the model's answers are merged back on the description as sent, which is truncated at lines 113-120, against the original description | "DIPIRONA LOTE 1" is sent as "DIPIRONA" and answered: the left merge finds no row and the item gets no attributes | the answer is joined to the item it was asked about | not executed | Etapa14Ia.ChaveOriginalPerdeResultado, Etapa14Ia.JuntarResultadosIa | Etapa14Ia.CorrigidaRestaura, Etapa14Ia.JuntarResultadosIaCorrigida |
