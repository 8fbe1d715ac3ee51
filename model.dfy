/** The records of model/employee.go, and the error values the importer
    attaches to a failed row. */
module Model {

  /** A calendar date as produced by Go's time.Parse; its structure is not modelled. */
  type Date(==)

  /** A salary as produced by strconv.ParseFloat (a float64); not modelled. */
  type Salary(==)

  /** One employee, built only from a row whose every field passed its check. */
  datatype Employee = Employee(
    id: int,
    firstName: string,
    lastName: string,
    gender: string,
    dateOfBirth: Date,
    email: string,
    dateOfJoining: Date,
    salary: Salary,
    phoneNumber: string
  )

  /** One CSV record and its 1-based position among the data rows. */
  datatype Job = Job(row: seq<string>, rowNum: int)

  /** The Go `error` values a row can fail with: one per check of parseRow,
      and the store's own message when the insert fails. */
  datatype ImportError =
    | InvalidId(text: string)
    | InvalidGender(upper: string)
    | InvalidEmail(email: string)
    | InvalidDateOfBirth(cause: string)
    | InvalidDateOfJoining(cause: string)
    | InvalidSalary(text: string)
    | InvalidPhoneNumber(phone: string)
    | InsertFailed(message: string)

  /** The fixed parts of the texts parseRow's errors print. */
  const IdPrefix := "failed to convert id "
  const IdSuffix := " from string to int"
  const GenderPrefix := "invalid gender short form "
  const EmailPrefix := "invalid email: "
  const BirthPrefix := "failed to parse date_of_birth date err: "
  const JoiningPrefix := "failed to parse date_of_joining date err: "
  const SalaryPrefix := "failed to convert salary "
  const SalarySuffix := " from string to float64"
  const PhonePrefix := "invalid phone number: "

  /** The text that `err.Error()` yields for each error value. */
  function Message(e: ImportError): (m: string)
    ensures e.InsertFailed? ==> m == e.message
  {
    match e
    case InvalidId(t) => IdPrefix + t + IdSuffix
    case InvalidGender(g) => GenderPrefix + g
    case InvalidEmail(m) => EmailPrefix + m
    case InvalidDateOfBirth(c) => BirthPrefix + c
    case InvalidDateOfJoining(c) => JoiningPrefix + c
    case InvalidSalary(t) => SalaryPrefix + t + SalarySuffix
    case InvalidPhoneNumber(p) => PhonePrefix + p
    case InsertFailed(m) => m
  }

  /** A message has the characters MessageKind reads. */
  predicate LongEnoughToName(m: string)
  {
    |m| > 8 && (m[0] != 'i' ==> |m| > 18 && (m[10] != 'c' ==> |m| > 24))
  }

  /** Which of the seven checks of parseRow an error comes from, in their
      order; 7 for a refused insert. */
  function CheckIndex(e: ImportError): (k: nat)
    ensures k <= 7 && (k == 7 <==> e.InsertFailed?)
  {
    match e
    case InvalidId(_) => 0
    case InvalidGender(_) => 1
    case InvalidEmail(_) => 2
    case InvalidDateOfBirth(_) => 3
    case InvalidDateOfJoining(_) => 4
    case InvalidSalary(_) => 5
    case InvalidPhoneNumber(_) => 6
    case InsertFailed(_) => 7
  }

  /** The check a message of parseRow names, read off the characters where
      the seven texts first differ. */
  function MessageKind(m: string): nat
    requires LongEnoughToName(m)
  {
    if m[0] == 'i' then (if m[8] == 'g' then 1 else if m[8] == 'e' then 2 else 6)
    else if m[10] == 'c' then (if m[18] == 'i' then 0 else 5)
    else if m[24] == 'b' then 3 else 4
  }

  lemma MessageNamesCheck(e: ImportError)
    requires !e.InsertFailed?
    ensures LongEnoughToName(Message(e)) && MessageKind(Message(e)) == CheckIndex(e)
  {
    PrefixKinds();
    match e
    case InvalidId(t) => KindOfPrefix(IdPrefix, t + IdSuffix);
    case InvalidGender(g) => KindOfPrefix(GenderPrefix, g);
    case InvalidEmail(a) => KindOfPrefix(EmailPrefix, a);
    case InvalidDateOfBirth(c) => KindOfPrefix(BirthPrefix, c);
    case InvalidDateOfJoining(c) => KindOfPrefix(JoiningPrefix, c);
    case InvalidSalary(t) => KindOfPrefix(SalaryPrefix, t + SalarySuffix);
    case InvalidPhoneNumber(n) => KindOfPrefix(PhonePrefix, n);
  }

  /** Each fixed prefix names its own check. */
  lemma PrefixKinds()
    ensures LongEnoughToName(IdPrefix) && MessageKind(IdPrefix) == 0
    ensures LongEnoughToName(GenderPrefix) && MessageKind(GenderPrefix) == 1
    ensures LongEnoughToName(EmailPrefix) && MessageKind(EmailPrefix) == 2
    ensures LongEnoughToName(BirthPrefix) && MessageKind(BirthPrefix) == 3
    ensures LongEnoughToName(JoiningPrefix) && MessageKind(JoiningPrefix) == 4
    ensures LongEnoughToName(SalaryPrefix) && MessageKind(SalaryPrefix) == 5
    ensures LongEnoughToName(PhonePrefix) && MessageKind(PhonePrefix) == 6
  {
  }

  /** The check a message names is read off its fixed prefix. */
  lemma KindOfPrefix(p: string, rest: string)
    requires LongEnoughToName(p)
    ensures LongEnoughToName(p + rest) && MessageKind(p + rest) == MessageKind(p)
  {
    var m := p + rest;
    assert m[0] == p[0] && m[8] == p[8];
    if p[0] != 'i' {
      assert m[10] == p[10] && m[18] == p[18];
      if p[10] != 'c' {
        assert m[24] == p[24];
      }
    }
  }

  lemma ConcatCancel(p: string, a: string, b: string, q: string)
    requires p + a + q == p + b + q
    ensures a == b
  {
    var m := p + a + q;
    assert |a| == |b|;
    assert a == m[|p|..|p| + |a|];
    assert b == (p + b + q)[|p|..|p| + |b|];
  }

  /** The error column of the error file determines the error of parseRow:
      different checks, or the same check on different texts, give
      different messages. */
  lemma MessageInjective(e1: ImportError, e2: ImportError)
    requires !e1.InsertFailed? && !e2.InsertFailed?
    requires Message(e1) == Message(e2)
    ensures e1 == e2
  {
    MessageNamesCheck(e1);
    MessageNamesCheck(e2);
    match e1
    case InvalidId(t) => ConcatCancel(IdPrefix, t, e2.text, IdSuffix);
    case InvalidGender(g) => ConcatCancel(GenderPrefix, g, e2.upper, "");
    case InvalidEmail(m) => ConcatCancel(EmailPrefix, m, e2.email, "");
    case InvalidDateOfBirth(c) => ConcatCancel(BirthPrefix, c, e2.cause, "");
    case InvalidDateOfJoining(c) => ConcatCancel(JoiningPrefix, c, e2.cause, "");
    case InvalidSalary(t) => ConcatCancel(SalaryPrefix, t, e2.text, SalarySuffix);
    case InvalidPhoneNumber(n) => ConcatCancel(PhonePrefix, n, e2.phone, "");
  }

  /** A failed row as handed to the error collector. */
  datatype ErrRow = ErrRow(rowId: int, error: ImportError, job: Job)
}
