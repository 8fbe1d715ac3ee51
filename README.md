# elasticsearch_importer: the CSV import core in Dafny

The importer reads a `;`-separated CSV file of employees and parses each data
row into an `Employee`. Each valid employee is indexed into Elasticsearch. Each
row that fails (a malformed field, or an insert the store refuses) goes to an
error CSV file: its first seven columns plus the error text. The error file
starts with the input header and one more column, `error`.

This project models that core, all of it from `commands/import.go`:

- `Model` (`model.dfy`): the records of `model/employee.go` (`Employee`,
  `Job`, `ErrRow`). The Go `error` values of a failed row are a datatype
  `ImportError`, and `Message` gives the text `err.Error()` returns for each.
- `Decimal` (`decimal.dfy`): `strconv.Atoi` as `parseRow` uses it on a 64-bit
  platform. It accepts exactly an optional sign, then leading zeros, then the
  digits of a value inside the 64-bit range, and returns that value.
- `Validators` (`validators.dfy`):
  - `validateGender`, and the ASCII upper-casing `parseRow` applies first.
  - `validateEmail` and the email pattern (import.go line 60).
  - `validatePhoneNumber` and the phone pattern (line 61).
  - Each pattern is matched by a deterministic function. The email pattern
    also has a declarative reading (local part, `@`, dot-separated labels),
    and lemmas prove the matcher and the reading agree in both directions.
  - The phone pattern is anchored only at the start, so the model matches a
    prefix. Characters after the twelfth are never looked at.
- `RowParser` (`parse_row.dfy`): `parseRow`, which runs seven checks in order
  and returns the error of the first that fails. It is proved to succeed
  exactly when all seven pass. A row written from a valid employee parses back
  to that employee.
- `Import` (`pipeline.dfy`), the pipeline run with one worker:
  - The reader is a sequence of read results. The first read is the header,
    and the end of the sequence stands for `io.EOF`. A failed read carries
    the fields csv.Reader returned with its error, so a header line that
    fails to parse still gives its leading fields to the error-file header.
  - `sendJobs` numbers the records 1, 2, 3, ... and stops at the first read
    error.
  - The `worker` loop either stores the parsed employee or emits an `ErrRow`.
  - `sumErrors` writes one line per error row through a `CsvWriter` class
    (its buffer and file are updated in place) and then flushes.
  - `execute` wires these together after writing the error-file header.
  - Lemmas prove that every dispatched job ends up either stored or written as
    exactly one error line, and that an error row names the job it reports.
  - Another lemma proves that reordering the jobs changes only the order of
    the error rows, not which ones are written, provided the store answers
    each employee the same way whenever it is asked. The real store is a
    network call, so under several workers this is an assumption.

Three inputs become parameters:

- `time.Parse` with the layout `1/2/2006`: a function from text to a `Date`
  or an error text.
- `strconv.ParseFloat`: a function from text to an optional `Salary`.
- The store's `InsertEmployee`: a function from an `Employee` to an optional
  error message.

`validateEmail` starts with a length guard, `len(email) < 3 && len(email) > 254`.
No length satisfies both conditions, so the guard never rejects. The model
keeps the guard as written: `EmailLengthGuardIsDead` shows the result is the
pattern match alone, and `LongAddressAccepted` shows addresses of any length
are accepted when they match.

## Model

| member | source | states |
|---|---|---|
| Decimal.Atoi | commands/import.go:281-284 | an id is accepted only as an optional sign followed by at least one digit, with a value inside the 64-bit int range; a negative value needs a leading '-' |
| Decimal.AtoiFormatInt | commands/import.go:281-284 | every 64-bit integer written in decimal converts back to itself |
| Decimal.AtoiRejectsOutOfRange | commands/import.go:281-284 | an integer outside the 64-bit range, written in decimal, is refused |
| Decimal.AtoiSignDigits | commands/import.go:281-284 | a sign (none, '+' or '-') followed by one or more digits is read as the signed value of the digits when that value is in range, and refused otherwise |
| Decimal.AtoiDecimalText | commands/import.go:281-284 | every text made of an optional sign, any number of leading zeros and the digits of a magnitude is accepted when its signed value is in range, and yields that value ("+007" is 7, "-0" is 0) |
| Decimal.AtoiReadsDecimalText | commands/import.go:281-284 | every accepted text is such a sign, zeros and digits text, and the value returned is its signed magnitude |
| Decimal.AtoiIff | commands/import.go:281-284 | Atoi(s) is Some(n) exactly when n is in the 64-bit range and s is an optional sign, leading zeros and the digits of n's magnitude with the sign giving n |
| Model.Message | commands/import.go:281-316 | the texts err.Error() gives for each error of parseRow; a store error's message passes through unchanged |
| Model.MessageNamesCheck | commands/import.go:281-316 | the message of each parseRow error identifies which of the seven checks failed |
| Model.MessageInjective | commands/import.go:266 | the error column determines the parseRow error: different checks, or the same check on different texts, give different messages |
| Validators.ToUpper | commands/import.go:289 | upper-casing keeps the length, leaves no lower-case ASCII letter, and changes only lower-case letters, each to its capital |
| Validators.ValidateGender | commands/import.go:332-341 | a gender passes exactly when it is the single character M or F |
| Validators.GenderAccepted | commands/import.go:332-341 | after upper-casing, the gender check passes exactly for "M", "F", "m" and "f", and the stored gender is "M" or "F" accordingly |
| Validators.MatchDomain | commands/import.go:60 | an accepted domain is non-empty, starts and ends with a letter or digit, and holds only letters, digits, '-' and '.' |
| Validators.MatchEmail | commands/import.go:60 | an accepted address holds exactly one '@' |
| Validators.MatchDomainSound | commands/import.go:60 | what the domain matcher accepts is a dot-separated sequence of labels of 1 to 63 characters, alphanumeric at both ends |
| Validators.MatchDomainComplete | commands/import.go:60 | every such sequence of labels is accepted by the domain matcher |
| Validators.MatchEmailSound | commands/import.go:60 | an address the matcher accepts is a non-empty local part over the pattern's character class, an '@', and a domain |
| Validators.MatchEmailComplete | commands/import.go:60 | every address of that form is accepted by the matcher |
| Validators.MatchEmailIff | commands/import.go:60 | the email matcher accepts exactly the addresses of the pattern |
| Validators.ValidateEmail | commands/import.go:343-348 | validateEmail returns true exactly for the addresses of the email pattern |
| Validators.EmailLengthGuardIsDead | commands/import.go:344-346 | the length guard never rejects: validateEmail equals the pattern match for every length |
| Validators.LongAddressAccepted | commands/import.go:343-348 | addresses of every length, including ones longer than 254 characters, are accepted when they match the pattern |
| Validators.MatchPrefixIff | commands/import.go:61 | a pattern anchored only at the start matches exactly when the text is at least as long as the pattern and each leading character is in its class |
| Validators.ValidatePhoneNumber | commands/import.go:350-352 | a phone number is accepted exactly when its first twelve characters are a non-zero digit, two digits, '-', three digits, '-', four digits |
| Validators.PhoneSuffixIgnored | commands/import.go:61 | whatever follows a valid twelve-character prefix does not change the verdict |
| Validators.PhoneAcceptsNumber | commands/import.go:61 | "415-555-1234" is accepted |
| Validators.PhoneAcceptsSuffix | commands/import.go:61 | "415-555-12345extra" is accepted, since the pattern has no end anchor |
| Validators.PhoneRejectsLeadingZero | commands/import.go:61 | a number starting with 0 is refused |
| Validators.PhoneRejectsShortNumber | commands/import.go:61 | a number with only three final digits is refused |
| RowParser.Check | commands/import.go:281-317 | each of the seven checks, when it fails, reports the error of its own kind |
| RowParser.ParseRow | commands/import.go:278-330 | a parsed row gives an Employee whose id is the converted first column, whose name, email and phone columns are copied unchanged, whose gender is the upper-cased column and is "M" or "F", and whose dates and salary are what the parsers returned |
| RowParser.ParseRowSucceedsIff | commands/import.go:278-330 | parseRow succeeds exactly when all seven checks pass |
| RowParser.ParseRowFirstFailure | commands/import.go:278-317 | a failed row is reported with the error of the first of the seven checks to fail, in the source's order |
| RowParser.ParseRowAccepts | commands/import.go:319-329 | a row passing every check yields the Employee built from its columns and the parsers' results |
| RowParser.ParseRowIgnoresExtraColumns | commands/import.go:278-330 | columns after the ninth never affect the result |
| RowParser.ParseRowGender | commands/import.go:281-292 | once the id converts, any gender other than M, F, m or f is reported with its upper-cased text |
| RowParser.ParseRowRoundTrip | commands/import.go:278-330 | a valid Employee written as a row parses back to the same Employee |
| Import.RecordRun | commands/import.go:198-208 | the number of records sendJobs reads: all reads before it are records, and the read after it is an error or the end of input |
| Import.Header | commands/import.go:142-145 | the header is the fields of the first read, also when that read failed (the error is only logged), and empty for an empty input |
| Import.DataReads | commands/import.go:142-145 | the header's read and the data reads together are all the reads, in order |
| Import.PartialHeaderKept | commands/import.go:142-147 | a header line that fails to parse gives its leading fields, then "error", to the error-file header; an empty input gives just "error" |
| Import.ErrFileHeader | commands/import.go:147 | the error-file header is the input header with one more column, "error" |
| Import.SendJobs | commands/import.go:195-216 | the k-th job holds the k-th record and the number k; dispatch stops at the first read error or at the end of input |
| Import.DispatchedJobsUnique | commands/import.go:195-216 | the jobs sendJobs emits are determined by the input: exactly the numbered records before the first read error |
| Import.Process | commands/import.go:228-248 | a row that fails to parse is rejected with its parse error and never inserted; a parsed row is stored unless the store refuses it; an error row carries the job and its number |
| Import.ParseFailureSkipsStore | commands/import.go:228-237 | a row that fails to parse gets the same outcome whatever the store would answer, and its error is never an insert error |
| Import.ParseRowNeverInsertFailed | commands/import.go:228-237 | parseRow's errors are never store errors |
| Import.Outcomes | commands/import.go:227 | each job has exactly one outcome, in job order |
| Import.Worker | commands/import.go:227-249 | the worker loop stores exactly the employees, and emits exactly the error rows, that the jobs' outcomes call for, in job order |
| Import.OutcomesCount | commands/import.go:227-249 | stored employees and error rows together are as many as the jobs |
| Import.RejectionsFromOutcomes | commands/import.go:231-235 | for jobs numbered 1, 2, 3, ..., each error row is the outcome of the job whose number it carries |
| Import.RejectionsMembers | commands/import.go:231-247 | every error row is the rejection of some job |
| Import.RejectedAreReported | commands/import.go:231-247 | every rejected job has its error row among those emitted |
| Import.RejectionsIncreasing | commands/import.go:227-249 | for jobs numbered in order, the error rows have strictly increasing row numbers, so no row is reported twice |
| Import.RejectedRowsWide | commands/import.go:264 | every error row holds the full row of its job, at least the seven columns the error file copies |
| Import.DispatchedErrorRows | commands/import.go:195-249 | the error rows of dispatched jobs name, by their number, the job they report, and come in strictly increasing order |
| Import.RejectionsOrderIndependent | commands/import.go:171-178 | the error rows, as a multiset, do not depend on the order of the outcomes |
| Import.OutcomesOrderIndependent | commands/import.go:171-178 | permuting the jobs permutes their outcomes, for a store that answers each employee the same way whenever asked |
| Import.ErrorRowsOrderIndependent | commands/import.go:171-178 | however the jobs are shared among workers, the same error rows come out, for a store that answers each employee the same way whenever asked |
| Import.ErrorLine | commands/import.go:263-267 | an error line is the job's first seven columns followed by the error text |
| Import.SumErrors | commands/import.go:262-275 | the file receives what was buffered, then one error line per error row in the order received, and the buffer is left empty |
| Import.CsvWriter.Write | commands/import.go:148 | a written record is appended to the buffer and the file is unchanged |
| Import.CsvWriter.Flush | commands/import.go:275 | flushing appends the buffer to the file and empties the buffer |
| Import.Execute | commands/import.go:121-193 | the error file, written from empty, is the error-file header followed by one line per error row; error lines plus stored employees are as many as the dispatched jobs; the stored employees and the error rows are those of the jobs' outcomes |

## Left out

- Goroutines, channels and WaitGroups: the model runs one worker sequentially,
  so the order in which several workers would emit error rows is not modelled.
- Import.OutcomesOrderIndependent: assumes the store answers by employee
  alone. The real `InsertEmployee` (logic/employee.go) is a network call, so
  under several workers which rows it refuses can change from run to run.
- Import.ErrorRowsOrderIndependent: the same assumption about the store; it
  shows only that the worker schedule by itself does not change the error rows.
- With `numOfWorkers` at 0 or below (import.go:174) no worker starts, and
  `sendJobs` blocks for ever on its first send; the one-worker model cannot
  show this.
- Elasticsearch: the index check and creation, the `mappings` constant, and
  the document itself are not modelled. `InsertEmployee` (logic/employee.go)
  is a parameter function from an Employee to an optional error message.
- `time.Parse` and `strconv.ParseFloat` are parameters. Date and salary are
  abstract types, so float64 values, rounding and the accepted date forms are
  not modelled.
- File handling: opening the error file, `os.Exit`, `defer Close`, and the
  cobra command and its flags (root.go, main.go, commands/queries.go are not
  part of this model).
- CSV syntax: quoting, the `;` separator and csv.Reader's field-count rule
  are inside the reader. The model takes the sequence of read results it
  produces, with any such failure as a read error.
- Write errors of csv.Writer: the model's writer never fails, so the early
  return when the header cannot be written (import.go:148-152) and the
  logging of failed error lines (import.go:269-273) do not arise.
- Logging (logrus) and the `fmt.Println` of each employee.
- RowParser.ParseRow: requires at least nine columns. The source reads
  column k only after the earlier checks pass, so a row of 7 or 8 columns
  whose failing check comes before its missing column is reported normally
  (sumErrors needs only the first seven columns); such rows are not modelled.
  A row of fewer than 7 columns makes the source panic, in parseRow or at
  `Row[:7]`, and neither is modelled.
- Import.Execute: requires every dispatched record to have at least nine
  columns, for the same reason.
- Import.Execute: the error file is opened without truncation
  (import.go:130); the model writes it from empty, so the tail an older,
  longer file would keep after the new lines is not modelled.
- Import.CsvWriter.Write: the real writer's 4096-byte buffer also reaches
  the file by itself when full; only the file's content after the flush is
  modelled.
- Validators.ToUpper: upper-cases ASCII letters only. Go's strings.ToUpper
  also maps other Unicode letters. The set of accepted genders is the same
  either way, since only "M" and "F" pass after upper-casing.
- Strings are sequences of characters. Go's regexp decodes the UTF-8 text
  into runes and matches those; the two patterns accept only ASCII
  characters, so matching characters gives the same verdict.
  The email length guard's `len` counts bytes, but the guard is dead either
  way.
- Decimal.Atoi: assumes Go's `int` is 64 bits wide.
