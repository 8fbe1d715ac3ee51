/** parseRow (commands/import.go:278-330): one CSV record to an Employee,
    or the error of the first check that fails. */
module RowParser {
  import opened Wrappers
  import opened Model
  import opened Decimal
  import opened Validators

  /** The two library parsers parseRow calls and the model does not open up:
      time.Parse with the layout "1/2/2006" (its error text is kept), and
      strconv.ParseFloat to 64 bits (its error text is not used). */
  datatype Parsers = Parsers(date: string -> Result<Date, string>, salary: string -> Option<Salary>)

  /** Check `k` of the seven parseRow runs, in its order, each taken on its
      own column: None when the column passes, else the error it reports. */
  function Check(row: seq<string>, p: Parsers, k: nat): (c: Option<ImportError>)
    requires |row| >= 9 && k < 7
    ensures c.Some? ==> CheckIndex(c.value) == k
  {
    match k
    case 0 => if Atoi(row[0]).Some? then None else Some(InvalidId(row[0]))
    case 1 => if ValidateGender(ToUpper(row[3])) then None else Some(InvalidGender(ToUpper(row[3])))
    case 2 => if ValidateEmail(row[4]) then None else Some(InvalidEmail(row[4]))
    case 3 => if p.date(row[5]).Success? then None else Some(InvalidDateOfBirth(p.date(row[5]).error))
    case 4 => if p.date(row[6]).Success? then None else Some(InvalidDateOfJoining(p.date(row[6]).error))
    case 5 => if p.salary(row[7]).Some? then None else Some(InvalidSalary(row[7]))
    case _ => if ValidatePhoneNumber(row[8]) then None else Some(InvalidPhoneNumber(row[8]))
  }

  /** Check `k` is the first of the seven to fail. */
  ghost predicate FirstFailing(row: seq<string>, p: Parsers, k: nat)
    requires |row| >= 9
  {
    k < 7 && Check(row, p, k).Some? && forall i: nat | i < k :: Check(row, p, i).None?
  }

  /** parseRow: the checks run one after the other and the first failure is
      returned at once; only a row that passes all seven yields an Employee,
      whose text columns are copied unchanged. */
  function ParseRow(row: seq<string>, p: Parsers): (r: Result<Employee, ImportError>)
    requires |row| >= 9
    ensures r.Success? ==>
      && Atoi(row[0]) == Some(r.value.id)
      && r.value.firstName == row[1]
      && r.value.lastName == row[2]
      && r.value.gender == ToUpper(row[3])
      && (r.value.gender == "M" || r.value.gender == "F")
      && r.value.email == row[4]
      && p.date(row[5]) == Success(r.value.dateOfBirth)
      && p.date(row[6]) == Success(r.value.dateOfJoining)
      && p.salary(row[7]) == Some(r.value.salary)
      && r.value.phoneNumber == row[8]
  {
    var id := Atoi(row[0]);
    if id.None? then
      Failure(InvalidId(row[0]))
    else
      var firstName := row[1];
      var lastName := row[2];
      var gender := ToUpper(row[3]);
      if !ValidateGender(gender) then
        Failure(InvalidGender(gender))
      else
        var email := row[4];
        if !ValidateEmail(email) then
          Failure(InvalidEmail(email))
        else
          var dateOfBirth := p.date(row[5]);
          if dateOfBirth.Failure? then
            Failure(InvalidDateOfBirth(dateOfBirth.error))
          else
            var dateOfJoining := p.date(row[6]);
            if dateOfJoining.Failure? then
              Failure(InvalidDateOfJoining(dateOfJoining.error))
            else
              var salary := p.salary(row[7]);
              if salary.None? then
                Failure(InvalidSalary(row[7]))
              else
                var phoneNum := row[8];
                if !ValidatePhoneNumber(phoneNum) then
                  Failure(InvalidPhoneNumber(phoneNum))
                else
                  Success(Employee(id.value, firstName, lastName, gender, dateOfBirth.value,
                                   email, dateOfJoining.value, salary.value, phoneNum))
  }

  /** parseRow succeeds exactly when all seven checks pass. */
  lemma ParseRowSucceedsIff(row: seq<string>, p: Parsers)
    requires |row| >= 9
    ensures ParseRow(row, p).Success? <==> forall i: nat | i < 7 :: Check(row, p, i).None?
  {
    if ParseRow(row, p).Success? {
      assert forall i: nat | i < 7 :: Check(row, p, i).None?;
    } else {
      ParseRowFirstFailure(row, p);
    }
  }

  /** A row that fails is reported with the error of the first check that
      fails. */
  lemma ParseRowFirstFailure(row: seq<string>, p: Parsers)
    requires |row| >= 9
    requires ParseRow(row, p).Failure?
    ensures exists k: nat :: FirstFailing(row, p, k) && Check(row, p, k) == Some(ParseRow(row, p).error)
  {
    var e := ParseRow(row, p).error;
    var k: nat;
    if Atoi(row[0]).None? {
      k := 0;
    } else if !ValidateGender(ToUpper(row[3])) {
      k := 1;
    } else if !ValidateEmail(row[4]) {
      k := 2;
    } else if p.date(row[5]).Failure? {
      k := 3;
    } else if p.date(row[6]).Failure? {
      k := 4;
    } else if p.salary(row[7]).None? {
      k := 5;
    } else {
      k := 6;
    }
    assert Check(row, p, k) == Some(e);
    assert FirstFailing(row, p, k);
  }

  /** Columns after the ninth are never looked at. */
  lemma ParseRowIgnoresExtraColumns(row: seq<string>, p: Parsers)
    requires |row| >= 9
    ensures ParseRow(row, p) == ParseRow(row[..9], p)
  {
    assert row[..9][0] == row[0] && row[..9][3] == row[3] && row[..9][4] == row[4];
    assert row[..9][5] == row[5] && row[..9][6] == row[6] && row[..9][7] == row[7] && row[..9][8] == row[8];
  }

  /** Once the id is well formed, the gender column decides the next step:
      "M", "F", "m", "f" pass, and anything else ("X", "", "MF", ...) is
      reported with its upper-cased text. */
  lemma ParseRowGender(row: seq<string>, p: Parsers)
    requires |row| >= 9 && Atoi(row[0]).Some?
    ensures !(row[3] == "M" || row[3] == "F" || row[3] == "m" || row[3] == "f") ==>
              ParseRow(row, p) == Failure(InvalidGender(ToUpper(row[3])))
    ensures ParseRow(row, p).Success? ==> ParseRow(row, p).value.gender == (if row[3] in {"M", "m"} then "M" else "F")
  {
    GenderAccepted(row[3]);
  }

  /** The row an Employee is written as: its fields in column order, with the
      given texts for the two dates and the salary. */
  function EmployeeRow(e: Employee, dateOfBirth: string, dateOfJoining: string, salary: string): (row: seq<string>)
    ensures |row| == 9
  {
    [FormatInt(e.id), e.firstName, e.lastName, e.gender, e.email,
     dateOfBirth, dateOfJoining, salary, e.phoneNumber]
  }

  /** A row that passes all seven checks is parsed into the Employee made of
      its columns and the parsers' results. */
  lemma ParseRowAccepts(row: seq<string>, p: Parsers)
    requires |row| >= 9
    requires Atoi(row[0]).Some? && ValidateGender(ToUpper(row[3])) && ValidateEmail(row[4])
    requires p.date(row[5]).Success? && p.date(row[6]).Success?
    requires p.salary(row[7]).Some? && ValidatePhoneNumber(row[8])
    ensures ParseRow(row, p) == Success(Employee(Atoi(row[0]).value, row[1], row[2], ToUpper(row[3]),
                                                 p.date(row[5]).value, row[4], p.date(row[6]).value,
                                                 p.salary(row[7]).value, row[8]))
  {
  }

  /** Writing a valid Employee as a row and parsing it gives the Employee
      back, provided the date and salary parsers read back the texts used. */
  lemma ParseRowRoundTrip(e: Employee, p: Parsers, dateOfBirth: string, dateOfJoining: string, salary: string)
    requires IntMin <= e.id <= IntMax
    requires e.gender == "M" || e.gender == "F"
    requires ValidateEmail(e.email) && ValidatePhoneNumber(e.phoneNumber)
    requires p.date(dateOfBirth) == Success(e.dateOfBirth)
    requires p.date(dateOfJoining) == Success(e.dateOfJoining)
    requires p.salary(salary) == Some(e.salary)
    ensures ParseRow(EmployeeRow(e, dateOfBirth, dateOfJoining, salary), p) == Success(e)
  {
    var row := EmployeeRow(e, dateOfBirth, dateOfJoining, salary);
    assert row[0] == FormatInt(e.id) && row[3] == e.gender && row[4] == e.email && row[8] == e.phoneNumber;
    assert row[5] == dateOfBirth && row[6] == dateOfJoining && row[7] == salary;
    AtoiFormatInt(e.id);
    GenderAccepted(e.gender);
    ParseRowAccepts(row, p);
  }
}
