# Privacy proxy: a verified model

Privacy proxy redacts secrets and personal data in text, JSON and JSON lines. A core engine finds and replaces;
a command line tool and an HTTP proxy use it; the proxy also counts what it does. This project models the engine,
the line machinery of both programs and the concurrent counters, and proves what they promise for all inputs,
all runs and all interleavings.

**The engine.** A string goes through ten detector stages in a fixed order (`Pipeline`). Each stage is one pass
over the matches of a regex that copies or replaces (`Splicing`). Regexes are known only by their matches, which
lie within the text, so every result holds for every detector; the IBAN prefix alone is modelled exactly
(`IbanPass`). Arithmetic is done as the program does it: a `u32` remainder modulo 97 streamed over numbers far
larger than a machine word (`Iban`), a right-to-left Luhn sum (`Luhn`), saturating 64-bit counters (`Stats`).
Cookie bodies and URL queries are split, rewritten and joined (`CookieBody`, `SensitiveUrl`, `UrlLaws`). JSON
values are walked twice, to redact and to scan (`Json`, `JsonWalk`).

The main results about it:

- The verdict of a scan does not depend on the mode. For every string and every JSON value, a scan counts nothing
  exactly when redaction records nothing in mask, drop or keyed hash mode; then redaction returns its input. A
  hashing policy without a key fails on all other inputs and on no others (`PipelineLaws`, `JsonLaws`).
- What the walks do at each key is settled by the configured entries and the enabled detectors (`RuleLaws`,
  `RuleWalk`): a key is taken out exactly when some deny entry is it, or stands in it and is long enough, no allow
  entry is it, and its kind is enabled; every other place holds the redaction of what stood there, and a scan counts
  just these.
- What each stage does to a match is stated in terms of the text (`StageLaws`): cards with exactly one check digit
  (`CardLaws`), URLs whose keys end in one of six words (`UrlKeys`), cookies that have a value (`CookieParts`), IBANs
  in any case and spacing (`IbanSpelling`). How names may be written is stated character by character (`Spelling`).
- In mask and drop mode, values that differ only underneath enabled denied keys are redacted to the same value
  with the same report. What stands at each place of the output is fixed by what stood there (`JsonShape`).
- The modulo 97 check is the arbitrary-precision one, accepts exactly one check pair from 02 to 98, and rejects
  every single substitution and every swap of neighbours within a part. The IBAN pass replaces exactly the
  longest IBANs, misses none, and running it again changes nothing exactly under a stated condition on the
  input (`IbanRerun`).
- Redacting twice is not always redacting once. Masking a JSON string of two IBANs in a row twice differs from
  masking it once, and a scan of the masked string still counts something (`RerunLaws`, from `IbanExample`). That is
  so with the IBAN detector alone, for any other regexes; and with any detectors enabled if their regexes find nothing
  in that string and its redactions. So the test at `crates/privacy_proxy_core/tests/properties.rs:41`, by which
  masking is idempotent on every JSON value, states more than the code keeps. For the default configuration, which the
  test uses, this rests on the second of the two: on its other regexes finding nothing in a string of letters and
  digits, nor in what is left of it around the text inserted for an IBAN.
- Where only IBANs are found, redacting a value again changes nothing exactly when no string in it has an IBAN
  directly after a replaced one (`RerunLaws`). A scan of the redacted value counts nothing exactly under the same
  condition together with: every enabled denied key reached has been dropped (`RescanLaws`), so masking always leaves
  something to count where a denied key stood. With any detectors, a scan of a redacted value counts nothing exactly
  when every denied key reached has been dropped and no enabled stage finds anything in the redaction of any string
  reached (`RescanLaws.Rescan`, `StageRuns.CountsNothingIff`), and then redacting again changes no string.
- Hashing does not always record what masking does, because the IBAN stage runs over the text that earlier stages
  insert, and a digest can begin with an IBAN. The stages write the same pieces under every policy (`Pieces`), and
  text inserted for secrets divides the count of IBANs (`IbanCount`). So where one stage and the IBAN stage alone find
  something, hashing records what masking records and one IBAN for each secret whose digest begins with one, and the
  two record the same exactly when no digest does (`HashLaws`; `HashWalk` for values). Where one stage alone finds
  something they always record the same (`StageRuns`). `HashExample` is an address that HMAC-SHA256, as RFC 2104 and
  FIPS 180-4 define it, maps to such a digest under the key `test-key`. HMAC-SHA256 is a parameter of the model, so
  the first eight bytes of that digest are a premise of the lemma; that they are an IBAN is proved.
- Recording and merging with saturation at each step is exact counting with one cut-off at the end.

**The lines.** The tool reads lines through a buffer under a byte limit (`LineReading`, `Jsonl`, `JsonlScan`); the
proxy splits a whole body (`ProxyBody`). Both are proved equal to one specification, whatever the chunks, so the
tool and the proxy agree, the scan counts what the proxy records, and lines stay lines (`JsonlLaws`,
`NoNewLines`).

**The counters.** Requests and snapshots are threads with program counters that interleave step by step
(`Metrics`). In every reachable state of any number of them the counters are exact modulo 2^64, the lock
excludes, and nothing is lost between the total and the map (`MetricsLaws`). After every schedule each counter and,
for every kind, each entry of the map is what the actions in the schedule recorded, but for reports on their way
(`ScheduleLaws`); each request has gone the way of the program (`RequestPaths`); and each field of a snapshot is that of
an earlier state, in the order of the reads (`SnapshotReads`). A snapshot shows at most as many
redactions by type as in total, and as many exactly when no report was on its way. The bounds on failures and on
bytes, which hold in every state, need not hold among the separately read fields of a snapshot: `MetricsExample` is a
run in which they do not, and `SnapshotLaws` says exactly when they do. What carries those conditions is that each field
is met by the requests present when it was read (`SnapshotLaws.ReachableMet`). The shown failures are at most the shown
requests exactly when the failures seen among the requests that arrived after `requests` was read are no more than the
earlier requests not seen to fail; that is so whenever no request is counted between the two reads. A snapshot that
begins after another was taken shows at least as much in every field and every entry, as counters should
(`SnapshotOrder`). From every reachable state the lock can be freed and every request brought to an end
(`MetricsProgress`). `Prometheus` covers the escaping of label values.

Code that changes things step by step is a method with loops, proved against a function of its inputs; the laws
are then lemmas about that function. Text is a sequence of ASCII characters, so a byte is a character.

## Model

| member | source | states |
|---|---|---|
| Stats.ScanReport.Record | crates/privacy_proxy_core/src/stats.rs:12-16 | One record adds one to the total and to the entry of its kind, both saturating |
| Stats.ScanReport.Merge | crates/privacy_proxy_core/src/stats.rs:18-24 | Merging adds total and every entry of the other report, saturating, and loses no entry |
| Stats.MergeCounts | crates/privacy_proxy_core/src/stats.rs:18-24 | The merge of two cut-off counts is the cut-off of the exact count of both |
| Stats.TallyIsExact | crates/privacy_proxy_core/src/stats.rs:12-16 | After any run of records, total and entries are min(2^64-1, exact number) |
| Stats.MergeOfTallies | crates/privacy_proxy_core/src/stats.rs:12-24 | Merging the reports of two runs gives the report of both runs, in either order |
| Stats.TallyAddsUp | crates/privacy_proxy_core/src/stats.rs:5-28 | A report is empty exactly when nothing was recorded; its total is the sum of its entries while that is below 2^64 |
| Policy.Policy.Replacement | crates/privacy_proxy_core/src/engine.rs:627-648 | Fails exactly for a hashing policy without a key |
| Policy.FromConfig | crates/privacy_proxy_core/src/engine.rs:594-606 | Fails exactly in hash mode with the variable unset or empty; what it loads has its key |
| Policy.FromConfigWithKey | crates/privacy_proxy_core/src/engine.rs:608-625 | An explicit key gives the policy that the same content of the variable gives, and fails on the same empty key |
| Policy.HexLower | crates/privacy_proxy_core/src/engine.rs:945-955 | The loop prints two lower-case digits a byte |
| Policy.UnhexHex | crates/privacy_proxy_core/src/engine.rs:945-955 | The printed digits determine the bytes |
| Policy.PlaceholderShowsDigest | crates/privacy_proxy_core/src/engine.rs:631-646 | In hash mode two inserted texts are equal exactly when the digests are |
| Policy.PlaceholderTellsKind | crates/privacy_proxy_core/src/engine.rs:627-648 | Equal inserted texts come from the same mode and the same kind, whatever the secrets and keys |
| Policy.PlaceholderChars | crates/privacy_proxy_core/src/engine.rs:627-648 | Inserted text is bracketed and free of separators, white space and line breaks |
| Policy.InsertedTexts | README.md:183-185 | The inserted texts of mask and drop mode, kind by kind |
| Spelling.SpellsIff | crates/privacy_proxy_core/src/engine.rs:930-936 | A name normalizes to another exactly when it spells it: letters in either case, and anything but letters and digits in between |
| Spelling.TrimIs | crates/privacy_proxy_core/src/engine.rs:717-724 | Trimming takes away blanks and the characters 9 to 13 around a text, and nothing else |
| Spelling.BlankIff | crates/privacy_proxy_core/src/engine.rs:717-724 | A text is blank exactly when it is made of those alone |
| RuleLaws.KindForFieldIs | crates/privacy_proxy_core/src/engine.rs:534-575 | A key has a kind exactly when some deny entry is it, or stands in it and has five letters and digits or more, and no allow entry is it; the kind is told by the words in it |
| RuleWalk.TakenOutAt | crates/privacy_proxy_core/src/engine.rs:114-144 | At every place reached by keys that stay, a key that the entries deny and whose kind is enabled holds its placeholder, or is absent in drop mode, with nothing below it |
| RuleWalk.OpenAt | crates/privacy_proxy_core/src/engine.rs:98-161 | At every place reached by keys that are not denied, or not of an enabled kind, stands the redaction of what stood there: a string through the detectors, a number as it was |
| RuleWalk.FindingsCounted | crates/privacy_proxy_core/src/engine.rs:98-193 | A scan counts, and redaction records, the kind of each key taken out and the findings in every string not below one |
| Fields.AllowEntriesAllow | crates/privacy_proxy_core/src/engine.rs:534-557 | An allow entry exempts every spelling of itself, whatever is denied |
| Fields.DenyEntriesDeny | crates/privacy_proxy_core/src/engine.rs:534-575 | A deny entry denies itself in every spelling and, from five characters on, every key around it, unless that key itself is allowed |
| Pipeline.ReplaceMatches | crates/privacy_proxy_core/src/engine.rs:660-698 | For any in-bounds matches of a stage the loop, with the closure of the stage, comes to the splice of the picked ones and records their kinds; it fails exactly when a picked one fails |
| Pipeline.ReplaceMatch | crates/privacy_proxy_core/src/engine.rs:240-476 | The closures, carried out: each records and returns what the decision for its match says, or declines without a record |
| Pipeline.ReplaceCard | crates/privacy_proxy_core/src/engine.rs:452-475 | The closure for cards, which asks the Luhn loop |
| Splicing.PickedOrdered | crates/privacy_proxy_core/src/engine.rs:669-688 | What is replaced is an ordered, disjoint run of in-bounds spans that the closure acts on, even if the matches overlap or are unsorted |
| Splicing.PickedMaximal | crates/privacy_proxy_core/src/engine.rs:669-682 | Every match is declined, replaced, or begins before the end of a replaced one |
| Splicing.PickedCover | crates/privacy_proxy_core/src/engine.rs:669-682 | When matches come in order, every one to be acted on begins inside a replaced span |
| Splicing.SpliceKeepsGaps | crates/privacy_proxy_core/src/engine.rs:684-697 | Input and output are woven from the same gaps, copied verbatim and in order |
| Splicing.SpliceLength | crates/privacy_proxy_core/src/engine.rs:684-697 | Output length is input length less what is replaced plus what is inserted |
| Splicing.QuietPass | crates/privacy_proxy_core/src/engine.rs:660-698 | A pass that records nothing returns its input and cannot fail |
| Iban.CheckIban | crates/privacy_proxy_core/src/engine.rs:873-905 | Accepts exactly the IBANs: form, length, and the unbounded value of the rearranged, expanded number is 1 modulo 97 |
| Iban.StreamRemainder | crates/privacy_proxy_core/src/engine.rs:889-904 | The `u32` remainder never overflows and is the unbounded number modulo 97; it stops at a foreign character |
| Iban.ErrorDetected | crates/privacy_proxy_core/src/engine.rs:889-904 | Replacing one stretch goes unnoticed exactly when the stretches agree modulo 97 |
| Iban.SubstitutionRejected | crates/privacy_proxy_core/src/engine.rs:889-904 | An accepted IBAN is rejected after any single digit-for-digit or letter-for-letter substitution |
| Iban.TranspositionRejected | crates/privacy_proxy_core/src/engine.rs:889-904 | An accepted IBAN is rejected after swapping two different neighbouring digits, both before or both after the fourth place |
| Iban.AcceptedChecks | crates/privacy_proxy_core/src/engine.rs:873-905 | A two-digit number is accepted exactly when it agrees modulo 97 with the computed check digits |
| Iban.ExactlyOneCheck | crates/privacy_proxy_core/src/engine.rs:873-905 | For every country code and account part of 11 to 30 characters exactly one check pair from 02 to 98 is accepted |
| Iban.IbanSpanIsLongest | crates/privacy_proxy_core/src/engine.rs:849-871 | The span ends the longest prefix that ends in a letter or digit and is an IBAN; there is none exactly when no prefix is one |
| Iban.ValidIbanSpan | crates/privacy_proxy_core/src/engine.rs:849-871 | The loop, with its running normalized length, finds that span |
| IbanSpelling.GapDoesNotMatter | crates/privacy_proxy_core/src/engine.rs:841-871 | A blank, tab, line feed, carriage return or form feed more, before the last character, makes no difference to whether a prefix is an IBAN |
| IbanSpelling.CaseDoesNotMatter | crates/privacy_proxy_core/src/engine.rs:841-871 | Nor does any letter in the other case |
| IbanSpelling.OtherEnds | crates/privacy_proxy_core/src/engine.rs:849-871 | No IBAN reaches past any other character |
| IbanSpelling.MarkEndsThere | crates/privacy_proxy_core/src/engine.rs:849-871 | Nothing makes an IBAN longer that is followed by a punctuation mark, or by nothing |
| IbanSpelling.WrittenRedacted | crates/privacy_proxy_core/src/engine.rs:416-450 | An IBAN in any case and spacing, with no digits around it and nothing that makes it longer, becomes the placeholder for its normalized form, with one record |
| IbanSpelling.GroupedRedacted | crates/privacy_proxy_core/src/engine.rs:416-450 | In particular one that is written in groups of four |
| IbanPass.FindsEveryStart | crates/privacy_proxy_core/src/engine.rs:519 | The matches of the prefix regex are exactly the places with a word boundary, two letters and two digits |
| IbanPass.ReplaceIbans | crates/privacy_proxy_core/src/engine.rs:416-450 | The separate loop for IBANs comes to the pass that replaces each candidate by its span |
| IbanRerun.ChosenAreIbans | crates/privacy_proxy_core/src/engine.rs:423-445 | Sound: every replaced span is the longest IBAN at a candidate start, in order and without overlap |
| IbanRerun.ChosenCoverIbans | crates/privacy_proxy_core/src/engine.rs:423-445 | Complete: every candidate start at which an IBAN begins lies inside a replaced span |
| IbanRerun.SecondPassIdleIff | crates/privacy_proxy_core/src/engine.rs:416-450 | Running the pass on its own mask or drop output changes nothing exactly when no replaced span is directly followed by an IBAN that lacked a word boundary |
| IbanRerun.SecondPassIdle | crates/privacy_proxy_core/src/engine.rs:416-450 | In particular when no replaced span is directly followed by a letter |
| IbanExample.SecondPassCanAct | crates/privacy_proxy_core/src/engine.rs:416-450 | Two IBANs in a row: a second pass replaces what the first left |
| Luhn.IsLuhnValid | crates/privacy_proxy_core/src/engine.rs:907-928 | The right-to-left loop with its toggling flag decides the positional sum modulo 10 |
| Luhn.ExactlyOneCheckDigit | crates/privacy_proxy_core/src/engine.rs:907-928 | Every payload is completed by exactly one check digit |
| Luhn.ChangedDigitRejected | crates/privacy_proxy_core/src/engine.rs:907-928 | Every single changed digit is rejected |
| Luhn.SwappedNeighbours | crates/privacy_proxy_core/src/engine.rs:907-928 | A swap of two different neighbours is accepted exactly for 0 and 9 |
| CookieBody.RedactCookieBody | crates/privacy_proxy_core/src/engine.rs:700-735 | The loop declines bodies without a value to hide; otherwise it rewrites each such value, records one cookie for each, and fails exactly without a key |
| CookieBody.CookieStructureKept | crates/privacy_proxy_core/src/engine.rs:700-735 | Split again, the output has the same parts in order: names stay, other parts stay whole, values have become the placeholder |
| CookieBody.CookieIdempotent | crates/privacy_proxy_core/src/engine.rs:700-735 | In mask and drop mode redacting twice is redacting once |
| CookieBody.CookieHidesValues | crates/privacy_proxy_core/src/engine.rs:700-735 | In mask and drop mode the output does not depend on the values that are replaced |
| SensitiveUrl.SplitTrailingUrlPunctuation | crates/privacy_proxy_core/src/engine.rs:788-804 | The loop cuts off the longest run of trailing punctuation |
| SensitiveUrl.RedactSensitiveUrl | crates/privacy_proxy_core/src/engine.rs:737-786 | Declines URLs without a sensitive parameter; otherwise gives the rewritten URL and records each; fails exactly without a key |
| SensitiveUrl.RewriteQuery | crates/privacy_proxy_core/src/engine.rs:757-779 | The loop over the parameters rewrites the sensitive ones in place |
| UrlKeys.SpelledKeyIsSecret | crates/privacy_proxy_core/src/engine.rs:806-817 | A key that ends in token, key, secret, password, code or session, in any spelling and with anything before it, is secret |
| UrlKeys.SecretsRedacted | crates/privacy_proxy_core/src/engine.rs:737-817 | A URL is acted on exactly when some key ends in one of the six words; then each such value becomes the placeholder, with one record each, and all else stays |
| UrlKeys.NoQueryLeft | crates/privacy_proxy_core/src/engine.rs:742-745 | A text without a question mark is declined |
| UrlKeys.SecretValuesHidden | crates/privacy_proxy_core/src/engine.rs:737-817 | In mask and drop mode what becomes of a URL does not depend on the values of such keys |
| UrlKeys.MatchedUrlRedacted | crates/privacy_proxy_core/src/engine.rs:317-330 | The stage does that to a match of its regex and copies what is around it |
| CookieParts.CookiesRedacted | crates/privacy_proxy_core/src/engine.rs:700-735 | A cookie body is acted on exactly when some part has a value that is not white space; then each such value becomes the placeholder, with one record each, and all else stays |
| CookieParts.HeaderRedacted | crates/privacy_proxy_core/src/engine.rs:263-288 | A cookie header keeps its name; a colon and a blank come between it and the redacted body |
| CookieParts.AssignmentRedacted | crates/privacy_proxy_core/src/engine.rs:290-315 | Cookies in free text keep the word before them |
| UrlLaws.PrintAfterParse | crates/privacy_proxy_core/src/engine.rs:737-786 | Writing out the parts of a URL gives the URL |
| UrlLaws.ParseAfterPrint | crates/privacy_proxy_core/src/engine.rs:737-786 | Reading a written URL gives its parts |
| UrlLaws.UrlStructureKept | crates/privacy_proxy_core/src/engine.rs:737-817 | Base, fragment, trailing punctuation, order, keys and all other parameters stay; sensitive values have become the placeholder |
| UrlLaws.UrlIdempotent | crates/privacy_proxy_core/src/engine.rs:737-817 | In mask and drop mode redacting twice is redacting once, also where a parameter gained an equals sign |
| UrlLaws.UrlHidesValues | crates/privacy_proxy_core/src/engine.rs:737-817 | In mask and drop mode the output does not depend on sensitive values |
| Pipeline.RunStage | crates/privacy_proxy_core/src/engine.rs:240-476 | Each stage does to the text and the report what its pass over its matches does |
| Pipeline.RedactStrWithPolicy | crates/privacy_proxy_core/src/engine.rs:195-238 | The enabled stages in order, with one report over all of them |
| PipelineLaws.DecisionsAgree | crates/privacy_proxy_core/src/engine.rs:240-476 | Whether a match is acted on, and what is recorded, does not depend on the policy |
| PipelineLaws.StageOutcome | crates/privacy_proxy_core/src/engine.rs:240-476 | A stage rewrites only when it records, and fails exactly when it has something to record and no key |
| PipelineLaws.StringVerdict | crates/privacy_proxy_core/src/engine.rs:195-238 | For every string the scan counts nothing exactly when redaction in any mode records nothing, and then redaction returns its input |
| PipelineLaws.ScanIsMask | crates/privacy_proxy_core/src/engine.rs:79-83 | Scanning a string counts exactly what masking it records |
| StageLaws.EmailReplaced | crates/privacy_proxy_core/src/engine.rs:354-370 | A match of the e-mail regex becomes the placeholder with one record, and what is around it stays |
| StageLaws.JwtDecided | crates/privacy_proxy_core/src/engine.rs:332-352 | A match of the JWT regex is replaced exactly when it has three parts between dots, the first beginning with `eyJ` and the others of eight characters or more; otherwise the text stays |
| StageLaws.Ipv4Decided | crates/privacy_proxy_core/src/engine.rs:372-392 | A match of the IPv4 regex is replaced exactly when it parses |
| StageLaws.Ipv6Decided | crates/privacy_proxy_core/src/engine.rs:394-414 | A match of the IPv6 regex is replaced exactly when it parses |
| StageLaws.BearerReplaced | crates/privacy_proxy_core/src/engine.rs:240-261 | The word before a bearer token stays and the token becomes the placeholder |
| StageLaws.StagesInOrder | crates/privacy_proxy_core/src/engine.rs:195-238 | The pipeline is the ten stages, listed with their detectors, each over what the enabled ones before it made of the text |
| CardLaws.CardDecided | crates/privacy_proxy_core/src/engine.rs:452-475 | A number written with blanks and hyphens is replaced and recorded exactly when it has 13 to 19 digits that pass the Luhn check |
| CardLaws.OneCheckDigitRedacted | crates/privacy_proxy_core/src/engine.rs:452-475 | For 12 to 18 digits, however written, exactly one further digit makes the stage replace the match and record one card; with the other nine the text stays |
| CardLaws.ChangedCardLeft | crates/privacy_proxy_core/src/engine.rs:452-475 | Of two numbers that differ in one digit the stage leaves at least one alone |
| NoNewLines.RedactedOneLine | crates/privacy_proxy_core/src/engine.rs:195-238 | No detector, in any mode, brings a line break into a text |
| Json.InsertKeepsSorted | crates/privacy_proxy_core/src/engine.rs:132-140 | Insertion into an object keeps its keys ascending and unique |
| Json.LookupInserted | crates/privacy_proxy_core/src/engine.rs:132-140 | Insertion changes what stands under its key and under no other |
| Json.LookupFinds | crates/privacy_proxy_core/src/engine.rs:114-144 | In an object each key stands once, and what is looked up under the key of a field is its value |
| JsonWalk.RedactValueInner | crates/privacy_proxy_core/src/engine.rs:98-112 | The walk gives the redacted value and the exact report, or fails when its specification does |
| JsonWalk.RedactObject | crates/privacy_proxy_core/src/engine.rs:114-144 | Fields in key order: enabled denied keys are recorded and dropped or replaced, the others walked |
| JsonWalk.RedactArray | crates/privacy_proxy_core/src/engine.rs:146-161 | Items in order, reports merged |
| JsonWalk.ScanStr | crates/privacy_proxy_core/src/engine.rs:79-83 | The report of the mask pipeline |
| JsonWalk.ScanValueInner | crates/privacy_proxy_core/src/engine.rs:163-193 | The separate scanning walk, with the exact report |
| JsonLaws.ScanCountsWalk | crates/privacy_proxy_core/src/engine.rs:98-193 | Whenever redaction succeeds, the scanning walk with the same policy counts exactly what redaction records |
| JsonLaws.JsonVerdict | crates/privacy_proxy_core/src/engine.rs:98-193 | For every value the scan never fails, and counts nothing exactly when redaction in any mode records nothing and returns its input; redaction fails exactly when it has something to do and no key |
| JsonLaws.ScanIsMask | crates/privacy_proxy_core/src/engine.rs:61-63 | Scanning a value counts exactly what masking it records |
| JsonLaws.DeniedFieldsDoNotShow | crates/privacy_proxy_core/src/engine.rs:114-161 | In mask and drop mode, values that differ only underneath enabled denied keys, at any depth, give the same value and the same report |
| JsonShape.ItemsKept | crates/privacy_proxy_core/src/engine.rs:146-161 | Arrays keep their length and order |
| JsonShape.FieldsKept | crates/privacy_proxy_core/src/engine.rs:114-144 | Objects keep the order and the keys of the fields that are not dropped |
| JsonShape.FormKept | crates/privacy_proxy_core/src/engine.rs:98-161 | Keys stay ascending and unique at every depth |
| JsonShape.WalkAtCleanPlace | crates/privacy_proxy_core/src/engine.rs:98-161 | At every place reached without a denied key stands the redaction of what stood there, and nothing where nothing stood |
| JsonShape.WalkAtDeniedKey | crates/privacy_proxy_core/src/engine.rs:123-137 | At every depth, an enabled denied key is absent (drop) or holds just its placeholder, with nothing below it |
| JsonShape.Twice | crates/privacy_proxy_core/src/engine.rs:98-161 | In mask and drop mode redacting a redacted value changes nothing exactly when that is so for every string reached |
| RerunLaws.PipelineIsIbanPass | crates/privacy_proxy_core/src/engine.rs:195-238 | Where the other enabled stages find nothing in a text and its redaction, the pipeline comes to the IBAN pass |
| RerunLaws.StringSettlesIff | crates/privacy_proxy_core/src/engine.rs:195-238 | There, in mask and drop mode, redacting a string twice is redacting it once exactly when no replaced IBAN is directly followed by another |
| RerunLaws.CleanOutputSettles | crates/privacy_proxy_core/src/engine.rs:195-238 | With any detectors, redacting a string twice is redacting it once when a scan of its redaction counts nothing |
| RerunLaws.ValueSettlesIff | crates/privacy_proxy_core/src/engine.rs:98-161 | Where only IBANs are found in the strings reached, redacting a value twice is redacting it once exactly when no string reached has an IBAN directly after a replaced one |
| RerunLaws.IbanValueSettlesIff | crates/privacy_proxy_core/src/engine.rs:98-161 | With the IBAN detector alone that is so for every value, whatever the other regexes |
| RerunLaws.RedactionCanActTwice | crates/privacy_proxy_core/tests/properties.rs:40-47 | A JSON string on which masking twice is not masking once, and whose redaction a scan still counts something in, if other detectors find nothing there |
| RerunLaws.IbansAloneActTwice | crates/privacy_proxy_core/tests/properties.rs:40-47 | With the IBAN detector alone that holds of that string, whatever the other regexes |
| RescanLaws.CleanAfterIff | crates/privacy_proxy_core/src/engine.rs:79-83 | Where only IBANs are found in a string and its redaction, a scan of the redaction counts nothing exactly when no replaced IBAN is directly followed by another |
| RescanLaws.Rescan | crates/privacy_proxy_core/src/engine.rs:98-193 | With any detectors, a scan of a redacted value counts nothing exactly when every enabled denied key reached is dropped and the scan counts nothing in the redaction of every string reached |
| RescanLaws.RescanIff | crates/privacy_proxy_core/src/engine.rs:98-193 | Where only IBANs are found in the strings reached, that is: exactly when every enabled denied key reached is dropped and no string reached has an IBAN directly after a replaced one |
| RescanLaws.IbanRescanIff | crates/privacy_proxy_core/src/engine.rs:98-193 | With the IBAN detector alone that is so for every value, whatever the other regexes |
| StageRuns.CountsNothingIff | crates/privacy_proxy_core/src/engine.rs:195-238 | A policy with its key records nothing exactly when no enabled stage finds anything in the input itself |
| StageRuns.PipelineIsStage | crates/privacy_proxy_core/src/engine.rs:195-238 | Where one stage alone finds something in a text and in what it makes of it, the ten stages come to that one, text and records |
| StageRuns.PipelineIsTwoStages | crates/privacy_proxy_core/src/engine.rs:195-238 | The same of two stages, the second over what the first has written |
| StageRuns.OneStageSameRecords | crates/privacy_proxy_core/src/engine.rs:195-238 | Two policies with their keys record the same where one stage alone finds something in the text and in what it writes under each |
| IbanCount.PassCounts | crates/privacy_proxy_core/src/engine.rs:416-450 | The pass records one IBAN for each that a left-to-right count takes, at longest spans |
| IbanCount.CountAcrossInserted | crates/privacy_proxy_core/src/engine.rs:627-648 | The text inserted for a secret keeps the IBANs before it and after it apart, and adds one exactly when it shows a digest that begins with an IBAN |
| Pieces.StageShown | crates/privacy_proxy_core/src/engine.rs:240-476 | Every stage writes the same text and secrets in the same order under every policy with its key; only what is inserted for the secrets differs |
| HashLaws.HashRecordsIff | crates/privacy_proxy_core/src/engine.rs:195-238 | Where one stage before the IBAN stage, and that stage, alone find something: hashing records what masking records and an IBAN for each secret whose digest begins with one, and the same exactly when no digest does |
| HashLaws.HashedMailIff | crates/privacy_proxy_core/src/engine.rs:627-648 | With the e-mail and IBAN detectors, hashing an address records one IBAN more than masking it exactly when its digest begins with one |
| HashWalk.CompareWalks | crates/privacy_proxy_core/src/engine.rs:98-161 | When hashing records at least as much as masking in every string reached it does in the value, and the same in the value exactly when the same in each string |
| HashWalk.HashValueIff | crates/privacy_proxy_core/src/engine.rs:98-161 | Hashing a value records what masking it records exactly when no digest in a string begins with an IBAN, where one stage and the IBAN stage alone find something in its strings |
| HashWalk.HashOfTwoDetectorsIff | crates/privacy_proxy_core/src/engine.rs:98-161 | With the IBAN detector and one other of a single stage (tokens, URLs, JWTs or addresses) that is so for every value |
| HashExample.HashCanRecordMore | crates/privacy_proxy_core/src/engine.rs:627-648 | Hashing one particular address under the key `test-key` records an IBAN that masking it does not |
| LineReading.LinesSplit | crates/privacy_proxy_proxy/src/lib.rs:593 | The newline-inclusive split gives lines that make up the text, all but the last ended |
| LineReading.SplitIsUnique | crates/privacy_proxy_proxy/src/lib.rs:593 | A text has only one such split |
| LineReading.ReadLimitedLine | crates/privacy_proxy_cli/src/main.rs:492-523 | Delivers the first line of what is left and leaves the rest, whatever the chunks; fails exactly when that line, with its newline, is longer than the limit |
| Jsonl.LineEndingIs | crates/privacy_proxy_cli/src/main.rs:550-558 | A line is cut before its line feed, and before a carriage return in front of that |
| Jsonl.RedactLine | crates/privacy_proxy_cli/src/main.rs:525-537 | A blank line is copied, JSON is redacted as JSON, anything else as text |
| Jsonl.RedactJsonl | crates/privacy_proxy_cli/src/main.rs:406-444 | Writes the redaction of every line up to the first that is too long or fails, and fails exactly when there is one; independent of the chunks |
| JsonlScan.LineScanSucceeds | crates/privacy_proxy_cli/src/main.rs:539-548 | Scanning a line never fails |
| JsonlScan.ScanLine | crates/privacy_proxy_cli/src/main.rs:539-548 | The exact report of a line |
| JsonlScan.ScanJsonl | crates/privacy_proxy_cli/src/main.rs:446-490 | Exact counts over the first lines up to the limit, with the mark exactly when there are more; fails exactly when one of these lines is too long |
| ProxyBody.RedactJsonlOrText | crates/privacy_proxy_proxy/src/lib.rs:583-640 | Line by line when asked to, or when there is a newline and every line that is not blank is JSON and one is; otherwise as one text |
| ProxyBody.AppendLine | crates/privacy_proxy_proxy/src/lib.rs:594-628 | One line appended with its ending, its report merged |
| ProxyBody.ValueFails | crates/privacy_proxy_proxy/src/lib.rs:601-605 | When redaction of a value fails, redaction of any text fails too |
| JsonlLaws.LineVerdict | crates/privacy_proxy_cli/src/main.rs:525-548 | Redaction of a line fails exactly without a key on a line that is not blank; it records something exactly when the scan does, in mask mode the same |
| JsonlLaws.TextVerdict | crates/privacy_proxy_cli/src/main.rs:406-490 | The same over all lines of a text |
| JsonlLaws.ProxyCountsScan | crates/privacy_proxy_proxy/src/lib.rs:583-640 | In mask mode the report of the proxy is the detections of the scan without a sample limit |
| JsonlLaws.ToolIsProxy | crates/privacy_proxy_cli/src/main.rs:406-444 | When no line is too long, tool and proxy fail on the same texts and otherwise write the same |
| JsonlLaws.LineStaysLine | crates/privacy_proxy_cli/src/main.rs:550-558 | A redacted line has the line ending it had and no other newline |
| JsonlLaws.LinesStayLines | crates/privacy_proxy_cli/src/main.rs:406-444 | Line for line the output is the redaction of the input; only a last line without a newline that becomes empty leaves none |
| MetricsLaws.StepMoves | crates/privacy_proxy_proxy/src/lib.rs:184-306 | Each step of a request or snapshot changes that thread alone, and the counters by what the thread newly accounts for |
| MetricsLaws.StepLocks | crates/privacy_proxy_proxy/src/lib.rs:118-152 | The map changes only under the lock, and only its owner gives it back |
| ScheduleLaws.CountersCount | crates/privacy_proxy_proxy/src/lib.rs:184-306 | After every schedule each counter is, modulo 2^64, the number or the bytes of the actions in it that it counts |
| ScheduleLaws.EntriesCount | crates/privacy_proxy_proxy/src/lib.rs:118-144 | After every schedule, for every kind, its entry in the map and what reports on their way hold of it are together what the schedule recorded of it, while fewer than 2^64 were recorded |
| ScheduleLaws.QuietEntries | crates/privacy_proxy_proxy/src/lib.rs:118-144 | When no report is on its way, every entry is exactly what was recorded of its kind |
| SnapshotReads.ReadPoints | crates/privacy_proxy_proxy/src/lib.rs:146-162 | Every field that a snapshot has read is that field of an earlier state, and the states follow one another in the order of the reads |
| SnapshotReads.SnapshotCounts | crates/privacy_proxy_proxy/src/lib.rs:146-162 | Every counter that a snapshot shows is the count of the actions before the point at which it was read |
| SnapshotReads.SnapshotEntries | crates/privacy_proxy_proxy/src/lib.rs:146-162 | Every entry that a snapshot shows is what had been recorded of its kind when the map was copied, less what reports then held of it |
| RequestPaths.RequestsTakePaths | crates/privacy_proxy_proxy/src/lib.rs:184-306 | In every interleaving each request has done its actions in the order of the program, and none after a report before that was merged |
| MetricsLaws.StepBalances | crates/privacy_proxy_proxy/src/lib.rs:118-144 | What a report adds to the total moves to the map without loss |
| MetricsLaws.StepKeepsInv | crates/privacy_proxy_proxy/src/lib.rs:118-306 | Every step keeps the invariant |
| MetricsLaws.ReachableInv | crates/privacy_proxy_proxy/src/lib.rs:118-306 | In every interleaving of any number of requests and snapshots: exact counters modulo 2^64, mutual exclusion, sum of the map plus reports on their way equals the total |
| MetricsLaws.SnapshotsAddUp | crates/privacy_proxy_proxy/src/lib.rs:146-162 | Every snapshot has the sum by type at most the total, and equal exactly when no report was on its way at the copy of the map and none was added before the total was read |
| MetricsLaws.RequestsAccounted | crates/privacy_proxy_proxy/src/lib.rs:184-306 | In every reachable state rejected payloads and upstream errors are together at most the requests, and request bytes at most requests times the limit, while fewer than 2^64 requests have arrived |
| SnapshotLaws.ReachableMet | crates/privacy_proxy_proxy/src/lib.rs:146-162 | In every interleaving each field of a snapshot is the number of requests, failures or bytes that there were when it was read |
| SnapshotLaws.SnapshotFailuresIff | crates/privacy_proxy_proxy/src/lib.rs:146-162 | By `ReachableMet` the two shown numbers count requests met at their reads; so the failures shown are at most the requests shown exactly when failures seen of requests that arrived later do not outnumber the earlier requests not seen to fail |
| SnapshotLaws.SnapshotFailuresBound | crates/privacy_proxy_proxy/src/lib.rs:146-162 | They are when no request is counted between the reads of `requests` and `rejected_payloads`; and they never exceed the requests arrived by now |
| SnapshotLaws.SnapshotBytesIff | crates/privacy_proxy_proxy/src/lib.rs:146-162 | The bytes that a snapshot shows are at most what its requests permit exactly when the bytes of requests that arrived after `requests` was read are at most what the earlier ones left unused |
| SnapshotLaws.SnapshotBytesHold | crates/privacy_proxy_proxy/src/lib.rs:146-162 | They are when no request is counted between the reads of `requests` and `request_bytes` |
| SnapshotOrder.LaterShowsMore | crates/privacy_proxy_proxy/src/lib.rs:146-162 | In every interleaving, a snapshot that copies the map after another was taken shows at least as much in every field and every entry, while no counter has wrapped around |
| MetricsProgress.NothingIsStuck | crates/privacy_proxy_proxy/src/lib.rs:118-306 | No two threads are inside the lock; every run can go on to free the lock, and to bring any request to an end |
| MetricsExample.SnapshotCanShowMoreThanRequests | crates/privacy_proxy_proxy/src/lib.rs:146-162 | A run after which a snapshot shows a rejected payload and a received byte, and no request |
| Prometheus.PrometheusEscapeLabelValue | crates/privacy_proxy_proxy/src/lib.rs:444-457 | The loop escapes backslash, quote and newline |
| Prometheus.UnescapeEscape | crates/privacy_proxy_proxy/src/lib.rs:444-457 | Every label value is recovered from its escaped form |
| Prometheus.QuoteCloses | crates/privacy_proxy_proxy/src/lib.rs:427-433 | The first unescaped quote after an escaped value is the closing one |
| Prometheus.SampleReadsBack | crates/privacy_proxy_proxy/src/lib.rs:427-433 | A sample line is read back as the label value and count it was written for |
| Prometheus.SampleIsOneLine | crates/privacy_proxy_proxy/src/lib.rs:427-433 | A sample is one line, whatever the detector is called |

## Left out

- Regexes other than the IBAN prefix, Unicode case folding, Unicode digits and white space, and UTF-8: text is ASCII, and a matcher is any function to in-bounds spans. The UTF-8 checks of the tool and the proxy are therefore absent.
- HMAC-SHA256, gzip, JSON parsing and printing, and the standard library's address parsers: parameters. A parser delivers objects in key order; a serializer writes no raw newline.
- The environment, files, standard streams and their errors: the content of the hash key variable is a parameter, and reading and writing do not fail.
- Errors name the missing variable only; contexts and line numbers in messages are absent.
- Pipeline.ReplaceMatches: a Dafny function value cannot write to the report, so the closures are one method, ReplaceMatch, that the loop calls for its stage. On failure the report is not specified; the source discards it.
- Pipeline.RunStage: the nine stage methods that differ in their closure only are one; the ten calls of `redact_str_with_policy` stand in two methods, RunEarlyStages and RunLateStages.
- SensitiveUrl.RewriteQuery, ProxyBody.AppendLine, ProxyBody.RedactLines, JsonlScan.MergeLine, JsonlScan.ScanNext and JsonlScan.ScanLoop are loops or loop bodies of the source made methods of their own.
- JsonlScan.ScanLine: since scanning is proved never to fail, the loop over the lines has no branch for a failing scan.
- Jsonl.RedactJsonl: the writer is the text written so far, and flushing is absent. `line_number` only serves messages.
- LineReading.ReadLimitedLine: lengths are unbounded, so the saturating addition of lengths is an addition.
- MetricsLaws.SnapshotsAddUp: holds while fewer than 2^64 redactions were added; past that the total wraps around while the map saturates.
- MetricsLaws.ReachableInv: one step is one atomic operation, one read or one write of a map entry, or one copy of the map under the lock; memory orderings weaker than interleaving are absent. The lock is never poisoned, since nothing panics inside it. A report has fewer than 2^64 records.
- Idempotence of the whole pipeline, a clean scan of redacted output, and equal counts in hash and mask mode hold on some inputs only (`RerunLaws.RedactionCanActTwice`, `HashExample.HashCanRecordMore`). The exact conditions given, in `RerunLaws`, `RescanLaws`, `HashLaws` and `HashWalk`, are about the stages that are modelled exactly: what other regexes find in inserted text is not known of regexes as matchers.
- RerunLaws.StringSettlesIff: the exact condition is given where no enabled stage but that for IBANs finds anything in the text and in what two passes make of it. For any detectors RerunLaws.CleanOutputSettles gives a sufficient condition.
- HashLaws.HashRecordsIff: is about a stage before the IBAN stage; that for credit cards, which comes after it, inserts nothing that the IBAN stage sees. HashWalk.HashOfTwoDetectorsIff leaves out cookies and IP addresses, whose detectors have two stages each.
- HashExample.HashCanRecordMore: SHA-256 and the e-mail regex are not modelled, so the first eight bytes of the digest, and that the regex matches the address whole, are premises.
- SnapshotLaws.SnapshotBytesIff: holds while fewer than 2^64 bytes were received; past that the shown bytes wrap around, while SnapshotLaws.SnapshotBytesHold still holds.
- StageLaws.EmailReplaced and the other laws about one match: what a stage does with several matches is stated in `Splicing` and `Pieces`, for all stages at once.
- IbanSpelling.WrittenRedacted: is about an IBAN with no digits around it; what the pass does in any text is stated in `IbanRerun`.
- `redact_body` and media types, header names, `apply_headers`, HTTP, URL joining, logging: they dispatch or pass on.
- Configuration files and their validation, command line arguments, `init`, `demo`, completions, corpora: user interface.
