/**
 * The `Subject` record: its field rules, the all-or-nothing constructors,
 * the per-field predicates of the desktop form and the deprecated
 * `TryParse` of each copy. The desktop copy (Model/Model.cs) and the console
 * copy (Program.cs) share this logic and differ only in what `Config` holds.
 */
module Subjects {
  import opened Common
  import opened Text
  import opened Dates

  const MaxNameLength: int := 25
  const MaxPassportNumber: int := 9999999999

  /** What the two copies of the validator disagree on. */
  datatype Config = Config(
    minPassportNumber: nat,  // the lower end of the accepted passport range
    nullGuard: bool)         // whether a null name is rejected (true) or dereferenced (false)

  /** The copy in Model/Model.cs: range starts at 0101000001, null names are rejected. */
  const Desktop: Config := Config(101000001, true)

  /** The copy in Program.cs: range starts at 0100000001, null names throw. */
  const Console: Config := Config(100000001, false)

  /** The reasons a construction can be refused, in the order they can be added. */
  datatype Message =
    | InvalidPassportNumber    // passport text is not a number
    | InvalidBirthDate         // birth date text is not a date
    | IncorrectFirstName
    | IncorrectSurname
    | IncorrectPatronymic
    | IncorrectPassportNumber  // passport number outside the accepted range

  function MessageText(m: Message): string {
    match m
    case InvalidPassportNumber => "Invalid passport number"
    case InvalidBirthDate => "Invalid birth date"
    case IncorrectFirstName => "Incorrect first name"
    case IncorrectSurname => "Incorrect surname"
    case IncorrectPatronymic => "Incorrect patronymic"
    case IncorrectPassportNumber => "Incorrect passport number"
  }

  /** Each message has its own text, so the list of texts tells the messages apart. */
  lemma MessageTextsDistinct(a: Message, b: Message)
    requires MessageText(a) == MessageText(b)
    ensures a == b
  {
  }

  /** The one key under which a rejection stores every message in `Exception.Data`. */
  const BadInputKey: string := "Bad input"

  /**
   * The loop that fills the rejection's `Exception.Data`: each message is
   * added under `BadInputKey`. `Data` refuses a key it already holds, so the
   * second addition throws a fresh ArgumentException (`duplicateKey`) and the
   * exception being built, with its messages, is never thrown.
   */
  method FillExceptionData(messages: seq<Message>) returns (data: map<string, string>, duplicateKey: bool)
    ensures duplicateKey <==> |messages| >= 2
    ensures messages == [] ==> data == map[]
    ensures messages != [] ==> data == map[BadInputKey := MessageText(messages[0])]
  {
    data := map[];
    duplicateKey := false;
    var i := 0;
    while i < |messages|
      invariant 0 <= i <= |messages| && i <= 1
      invariant i == 0 ==> data == map[]
      invariant i == 1 ==> data == map[BadInputKey := MessageText(messages[0])]
    {
      if BadInputKey in data {
        duplicateKey := true;
        return;
      }
      data := data[BadInputKey := MessageText(messages[i])];
      i := i + 1;
    }
  }

  /**
   * Why a constructor threw: an `ArgumentException` for the collected
   * messages (with two or more of them, a duplicate-key ArgumentException
   * without them; see `FillExceptionData`), or a null dereference.
   */
  datatype Failure = Rejected(messages: seq<Message>) | NullReferenceThrown

  /** A constructed person record; a null patronymic stays `None`. */
  datatype Subject = Subject(
    name: string,
    surname: string,
    patronymic: Option<string>,
    passportNumber: int,
    birthday: DateTime)

  /** U+0410 and U+044F, the first and last letters of the accepted alphabet. */
  const FirstLetter: char := '\U{0410}'
  const LastLetter: char := '\U{044F}'

  predicate IsNameChar(c: char) { (FirstLetter <= c <= LastLetter) || c == '-' || c == ' ' }

  /** The length and alphabet rule shared by name, surname and patronymic. */
  predicate WellFormedName(s: string) {
    1 <= |s| <= MaxNameLength && forall i :: 0 <= i < |s| ==> IsNameChar(s[i])
  }

  predicate IsWellFormed(v: Option<string>) { v.Some? && WellFormedName(v.value) }

  /** A patronymic may be missing or empty; otherwise it follows the name rule. */
  predicate PatronymicAllowed(p: Option<string>) { p.None? || p.value == "" || WellFormedName(p.value) }

  predicate PassportInRange(cfg: Config, n: int) { cfg.minPassportNumber <= n <= MaxPassportNumber }

  /** All field rules the constructors enforce, taken together in no particular order. */
  predicate ValidSubject(cfg: Config, s: Subject) {
    && WellFormedName(s.name)
    && WellFormedName(s.surname)
    && PatronymicAllowed(s.patronymic)
    && PassportInRange(cfg, s.passportNumber)
  }

  lemma WellFormedNameHasNoSeparator(s: string)
    requires WellFormedName(s)
    ensures Separator !in s
  {
  }

  /** `CheckStringValue` as a value: what the loop below decides. */
  function StringValueCheck(cfg: Config, value: Option<string>): (r: Outcome<bool>)
    ensures r == ThrowsNullReference <==> value.None? && !cfg.nullGuard
    ensures r == Returns(true) <==>
      value.Some? && 1 <= |value.value| <= MaxNameLength
      && forall i :: 0 <= i < |value.value| ==> IsNameChar(value.value[i])
  {
    match value
    case None => if cfg.nullGuard then Returns(false) else ThrowsNullReference
    case Some(s) => Returns(WellFormedName(s))
  }

  /** `CheckStringValue`: the length test, then one pass over the characters with early exit. */
  method CheckStringValue(cfg: Config, value: Option<string>) returns (r: Outcome<bool>)
    ensures r == StringValueCheck(cfg, value)
  {
    if value.None? {
      if cfg.nullGuard {
        return Returns(false);
      }
      return ThrowsNullReference;
    }
    var s := value.value;
    if |s| < 1 || |s| > MaxNameLength {
      return Returns(false);
    }
    var i := 0;
    while i < |s|
      invariant 0 <= i <= |s|
      invariant forall k :: 0 <= k < i ==> IsNameChar(s[k])
    {
      var ch := s[i];
      if (ch < FirstLetter || ch > LastLetter) && ch != '-' && ch != ' ' {
        return Returns(false);
      }
      i := i + 1;
    }
    return Returns(true);
  }

  /**
   * The if/else-if chain of `CheckValues`: the message of the first rule that
   * fails, in the order name, surname, patronymic, passport range.
   */
  function FieldCheck(cfg: Config, name: Option<string>, surname: Option<string>,
                      patronymic: Option<string>, passportNumber: int): (r: Outcome<Option<Message>>)
    ensures r == ThrowsNullReference <==>
      !cfg.nullGuard && (name.None? || (WellFormedName(name.value) && surname.None?))
    ensures r == Returns(Some(IncorrectFirstName)) <==>
      !IsWellFormed(name) && (name.Some? || cfg.nullGuard)
    ensures r == Returns(Some(IncorrectSurname)) <==>
      IsWellFormed(name) && !IsWellFormed(surname) && (surname.Some? || cfg.nullGuard)
    ensures r == Returns(Some(IncorrectPatronymic)) <==>
      IsWellFormed(name) && IsWellFormed(surname) && !PatronymicAllowed(patronymic)
    ensures r == Returns(Some(IncorrectPassportNumber)) <==>
      IsWellFormed(name) && IsWellFormed(surname) && PatronymicAllowed(patronymic)
      && !PassportInRange(cfg, passportNumber)
    ensures r == Returns(None) <==>
      IsWellFormed(name) && IsWellFormed(surname) && PatronymicAllowed(patronymic)
      && PassportInRange(cfg, passportNumber)
  {
    match StringValueCheck(cfg, name)
    case ThrowsNullReference => ThrowsNullReference
    case Returns(nameOk) =>
      if !nameOk then Returns(Some(IncorrectFirstName))
      else
        match StringValueCheck(cfg, surname)
        case ThrowsNullReference => ThrowsNullReference
        case Returns(surnameOk) =>
          if !surnameOk then Returns(Some(IncorrectSurname))
          else if patronymic.Some? && |patronymic.value| > 0
                  && StringValueCheck(cfg, patronymic) == Returns(false) then
            Returns(Some(IncorrectPatronymic))
          else if passportNumber < cfg.minPassportNumber || passportNumber > MaxPassportNumber then
            Returns(Some(IncorrectPassportNumber))
          else
            Returns(None)
  }

  /** The verdict of `CheckValues` and the message list it leaves behind. */
  datatype Checked = Checked(ok: bool, errors: seq<Message>)

  /**
   * `CheckValues`: appends at most one field message to the messages already
   * collected and succeeds when the list is then empty. The birthday is
   * passed in but never looked at.
   */
  function CheckValues(cfg: Config, name: Option<string>, surname: Option<string>,
                       patronymic: Option<string>, passportNumber: int, birthday: DateTime,
                       errors: seq<Message>): (r: Outcome<Checked>)
    ensures r == ThrowsNullReference <==>
      !cfg.nullGuard && (name.None? || (WellFormedName(name.value) && surname.None?))
    ensures r.Returns? ==> (r.value.ok <==> r.value.errors == [])
    ensures r.Returns? ==>
      |errors| <= |r.value.errors| <= |errors| + 1 && r.value.errors[..|errors|] == errors
    ensures r.Returns? ==>
      (r.value.ok <==> errors == [] && IsWellFormed(name) && IsWellFormed(surname)
                       && PatronymicAllowed(patronymic) && PassportInRange(cfg, passportNumber))
    ensures r.Returns? ==>
      var f := FieldCheck(cfg, name, surname, patronymic, passportNumber);
      f.Returns? && (|r.value.errors| == |errors| + 1 <==> f.value.Some?)
    ensures r.Returns? && |r.value.errors| == |errors| + 1 ==>
      FieldCheck(cfg, name, surname, patronymic, passportNumber) == Returns(Some(r.value.errors[|errors|]))
  {
    match FieldCheck(cfg, name, surname, patronymic, passportNumber)
    case ThrowsNullReference => ThrowsNullReference
    case Returns(message) =>
      var all := errors + (match message case Some(m) => [m] case None => []);
      assert all[..|errors|] == errors;
      Returns(Checked(all == [], all))
  }

  /** The messages the constructors collect from parsing, before any field rule runs. */
  function ParseErrors(passportText: Option<string>, birthdayText: Option<Option<string>>): (r: seq<Message>)
    ensures |r| <= 2
    ensures InvalidPassportNumber in r <==> ParseLong(passportText).None?
    ensures InvalidBirthDate in r <==> birthdayText.Some? && ParseDate(birthdayText.value).None?
    ensures |r| == 2 ==> r == [InvalidPassportNumber, InvalidBirthDate]
    ensures (r == []) <==>
      ParseLong(passportText).Some? && (birthdayText.None? || ParseDate(birthdayText.value).Some?)
  {
    (if ParseLong(passportText).None? then [InvalidPassportNumber] else [])
    + (match birthdayText
       case Some(text) => if ParseDate(text).None? then [InvalidBirthDate] else []
       case None => [])
  }

  /**
   * Both constructors once the birthday is known: parse the passport, run
   * `CheckValues` on top of the parse errors, set all five fields or throw.
   */
  function Construct(cfg: Config, name: Option<string>, surname: Option<string>,
                     patronymic: Option<string>, passportText: Option<string>,
                     birthday: DateTime, parseErrors: seq<Message>): (r: Result<Subject, Failure>)
    ensures r.Success? <==>
      parseErrors == [] && IsWellFormed(name) && IsWellFormed(surname)
      && PatronymicAllowed(patronymic) && PassportInRange(cfg, ParseLong(passportText).GetOr(0))
    ensures r.Success? ==>
      r.value == Subject(name.value, surname.value, patronymic, ParseLong(passportText).GetOr(0), birthday)
    ensures r.Success? ==> ValidSubject(cfg, r.value)
    ensures r.Failure? && r.error.Rejected? ==>
      var m := r.error.messages;
      m != [] && |parseErrors| <= |m| <= |parseErrors| + 1 && m[..|parseErrors|] == parseErrors
    ensures r.Failure? && r.error.Rejected? ==>
      var m := r.error.messages;
      var f := FieldCheck(cfg, name, surname, patronymic, ParseLong(passportText).GetOr(0));
      (|m| == |parseErrors| ==> f == Returns(None))
      && (|m| == |parseErrors| + 1 ==> f == Returns(Some(m[|parseErrors|])))
    ensures r == Failure(NullReferenceThrown) <==>
      !cfg.nullGuard && (name.None? || (WellFormedName(name.value) && surname.None?))
  {
    var passportNumber := ParseLong(passportText).GetOr(0);
    match CheckValues(cfg, name, surname, patronymic, passportNumber, birthday, parseErrors)
    case ThrowsNullReference => Failure(NullReferenceThrown)
    case Returns(c) =>
      if c.ok then Success(Subject(name.value, surname.value, patronymic, passportNumber, birthday))
      else Failure(Rejected(c.errors))
  }

  /** The constructor taking the birthday as text (both copies; the only one in Program.cs). */
  function NewSubject(cfg: Config, name: Option<string>, surname: Option<string>,
                      patronymic: Option<string>, passportText: Option<string>,
                      birthdayText: Option<string>): (r: Result<Subject, Failure>)
    ensures r.Success? <==>
      ParseLong(passportText).Some? && ParseDate(birthdayText).Some?
      && IsWellFormed(name) && IsWellFormed(surname) && PatronymicAllowed(patronymic)
      && PassportInRange(cfg, ParseLong(passportText).value)
    ensures r.Success? ==>
      r.value == Subject(name.value, surname.value, patronymic,
                         ParseLong(passportText).value, ParseDate(birthdayText).value)
    ensures r.Failure? && r.error.Rejected? ==>
      var pe := ParseErrors(passportText, Some(birthdayText));
      var m := r.error.messages;
      m != [] && |pe| <= |m| <= |pe| + 1 && m[..|pe|] == pe
    ensures r.Failure? && r.error.Rejected? ==>
      var pe := ParseErrors(passportText, Some(birthdayText));
      var m := r.error.messages;
      var f := FieldCheck(cfg, name, surname, patronymic, ParseLong(passportText).GetOr(0));
      (|m| == |pe| ==> f == Returns(None)) && (|m| == |pe| + 1 ==> f == Returns(Some(m[|pe|])))
    ensures r == Failure(NullReferenceThrown) <==>
      !cfg.nullGuard && (name.None? || (WellFormedName(name.value) && surname.None?))
  {
    Construct(cfg, name, surname, patronymic, passportText,
              ParseDate(birthdayText).GetOr(MinValue), ParseErrors(passportText, Some(birthdayText)))
  }

  /** The constructor taking the birthday as a date (Model.cs only, used by the desktop form). */
  function NewSubjectOn(cfg: Config, name: Option<string>, surname: Option<string>,
                        patronymic: Option<string>, passportText: Option<string>,
                        birthday: DateTime): (r: Result<Subject, Failure>)
    ensures r.Success? <==>
      ParseLong(passportText).Some? && IsWellFormed(name) && IsWellFormed(surname)
      && PatronymicAllowed(patronymic) && PassportInRange(cfg, ParseLong(passportText).value)
    ensures r.Success? ==>
      r.value == Subject(name.value, surname.value, patronymic, ParseLong(passportText).value, birthday)
    ensures r.Failure? && r.error.Rejected? ==>
      var pe := ParseErrors(passportText, None);
      var m := r.error.messages;
      m != [] && |pe| <= |m| <= |pe| + 1 && m[..|pe|] == pe
    ensures r.Failure? && r.error.Rejected? ==>
      var pe := ParseErrors(passportText, None);
      var m := r.error.messages;
      var f := FieldCheck(cfg, name, surname, patronymic, ParseLong(passportText).GetOr(0));
      (|m| == |pe| ==> f == Returns(None)) && (|m| == |pe| + 1 ==> f == Returns(Some(m[|pe|])))
    ensures r == Failure(NullReferenceThrown) <==>
      !cfg.nullGuard && (name.None? || (WellFormedName(name.value) && surname.None?))
  {
    Construct(cfg, name, surname, patronymic, passportText, birthday, ParseErrors(passportText, None))
  }

  /** How `String.Format` prints a possibly-null patronymic: null becomes "". */
  function PatronymicText(p: Option<string>): (r: string)
    ensures p.Some? ==> r == p.value
    ensures p.None? ==> r == ""
  {
    p.GetOr("")
  }

  /** `Subject.ToString()`: the display form "surname name patronymic, pass: n, birth: date". */
  function DisplayString(s: Subject): (r: string)
    ensures Separator in r <==>
      Separator in s.surname || Separator in s.name || Separator in PatronymicText(s.patronymic)
  {
    s.surname + " " + s.name + " " + PatronymicText(s.patronymic)
    + ", pass: " + LongText(s.passportNumber) + ", birth: " + FormatInvariant(s.birthday)
  }

  /**
   * Whether the string constructor accepts the first five of the given
   * fields: both texts parse and every field rule holds.
   */
  predicate FieldsConstruct(cfg: Config, f: seq<string>)
    requires |f| >= 5
  {
    && ParseLong(Some(f[3])).Some? && ParseDate(Some(f[4])).Some?
    && WellFormedName(f[0]) && WellFormedName(f[1]) && PatronymicAllowed(Some(f[2]))
    && PassportInRange(cfg, ParseLong(Some(f[3])).value)
  }

  /** The record the string constructor builds from the first five fields once they are accepted. */
  function FieldsRecord(f: seq<string>): Subject
    requires |f| >= 5 && ParseLong(Some(f[3])).Some? && ParseDate(Some(f[4])).Some?
  {
    Subject(f[0], f[1], Some(f[2]), ParseLong(Some(f[3])).value, ParseDate(Some(f[4])).value)
  }

  /** `Subject.TryParse` of Model.cs: the first five ';'-fields, any number beyond them ignored. */
  function TryParseDesktop(line: string): (r: Option<Subject>)
    ensures r.Some? <==> |Split(line)| >= 5 && FieldsConstruct(Desktop, Split(line))
    ensures r.Some? ==> r.value == FieldsRecord(Split(line)) && ValidSubject(Desktop, r.value)
  {
    var f := Split(line);
    if |f| >= 5 then
      NewSubject(Desktop, Some(f[0]), Some(f[1]), Some(f[2]), Some(f[3]), Some(f[4])).ToOption()
    else
      None
  }

  /** `Subject.TryParse` of Program.cs: exactly six ';'-fields, the sixth ignored. */
  function TryParseConsole(line: string): (r: Option<Subject>)
    ensures r.Some? <==> |Split(line)| == 6 && FieldsConstruct(Console, Split(line))
    ensures r.Some? ==> r.value == FieldsRecord(Split(line)) && ValidSubject(Console, r.value)
  {
    var f := Split(line);
    if |f| == 6 then
      NewSubject(Console, Some(f[0]), Some(f[1]), Some(f[2]), Some(f[3]), Some(f[4])).ToOption()
    else
      None
  }

  // ---- The per-field predicates of Model.cs, bound by the desktop form ----

  function CheckName(name: Option<string>): (r: bool)
    ensures r <==> IsWellFormed(name)
  {
    StringValueCheck(Desktop, name) == Returns(true)
  }

  function CheckSurname(surname: Option<string>): (r: bool)
    ensures r <==> IsWellFormed(surname)
  {
    StringValueCheck(Desktop, surname) == Returns(true)
  }

  function CheckPatronymic(patronymic: Option<string>): (r: bool)
    ensures r <==> PatronymicAllowed(patronymic)
    ensures patronymic.Some? && patronymic.value != "" ==> (r <==> CheckName(patronymic))
  {
    if patronymic.None? || patronymic.value == "" then true
    else StringValueCheck(Desktop, patronymic) == Returns(true)
  }

  function CheckPassportNumber(passportText: Option<string>): (r: bool)
    ensures r <==> ParseLong(passportText).Some? && PassportInRange(Desktop, ParseLong(passportText).value)
  {
    match ParseLong(passportText)
    case None => false
    case Some(n) => n >= Desktop.minPassportNumber && n <= MaxPassportNumber
  }

  function CheckBirthday(birthday: DateTime): (r: bool)
    ensures r <==> birthday.year > 1900 || (birthday.year == 1900 && (birthday.month > 1 || birthday.day > 1))
  {
    CompareDates(birthday, BirthdayFloor) > 0
  }

  // ---- Properties of the validator ----

  /** Both ends of the desktop passport range are accepted and one unit outside is refused. */
  lemma DesktopPassportBoundaries()
    ensures CheckPassportNumber(Some(LongText(101000001)))
    ensures !CheckPassportNumber(Some(LongText(101000000)))
    ensures CheckPassportNumber(Some(LongText(9999999999)))
    ensures !CheckPassportNumber(Some(LongText(10000000000)))
  {
    ParseLongText(101000001);
    ParseLongText(101000000);
    ParseLongText(9999999999);
    ParseLongText(10000000000);
  }

  /**
   * With well-formed names, a passport written as `long.ToString()` prints it
   * is accepted by either constructor exactly when it lies in the range.
   */
  lemma PassportRangeDecides(cfg: Config, name: string, surname: string, patronymic: Option<string>,
                             n: int, birthday: DateTime)
    requires WellFormedName(name) && WellFormedName(surname) && PatronymicAllowed(patronymic)
    requires MinLong <= n <= MaxLong
    ensures NewSubjectOn(cfg, Some(name), Some(surname), patronymic, Some(LongText(n)), birthday).Success?
            <==> PassportInRange(cfg, n)
    ensures NewSubject(cfg, Some(name), Some(surname), patronymic, Some(LongText(n)),
                       Some(FormatInvariant(birthday))).Success?
            <==> PassportInRange(cfg, n)
  {
    ParseLongText(n);
    ParseFormatted(birthday);
  }

  /**
   * The console copy's string constructor accepts 0100000001; the desktop
   * copy refuses it from either of its constructors.
   */
  lemma CopiesDisagreeOnLowerBound(name: string, surname: string, birthday: DateTime)
    requires WellFormedName(name) && WellFormedName(surname)
    ensures NewSubject(Console, Some(name), Some(surname), None, Some(LongText(100000001)),
                       Some(FormatInvariant(birthday))) == Success(Subject(name, surname, None, 100000001, birthday))
    ensures NewSubject(Desktop, Some(name), Some(surname), None, Some(LongText(100000001)),
                       Some(FormatInvariant(birthday))) == Failure(Rejected([IncorrectPassportNumber]))
    ensures NewSubjectOn(Desktop, Some(name), Some(surname), None, Some(LongText(100000001)), birthday)
            == Failure(Rejected([IncorrectPassportNumber]))
  {
    ParseLongText(100000001);
    ParseFormatted(birthday);
  }

  /**
   * A passport that does not parse leaves 0 behind, so with good names the
   * range rule fails as well and both passport messages are collected.
   */
  lemma UnparsablePassportCollectedTwice(cfg: Config, name: string, surname: string,
                                        patronymic: Option<string>, passportText: Option<string>,
                                        birthday: DateTime)
    requires WellFormedName(name) && WellFormedName(surname) && PatronymicAllowed(patronymic)
    requires ParseLong(passportText).None? && cfg.minPassportNumber > 0
    ensures NewSubjectOn(cfg, Some(name), Some(surname), patronymic, passportText, birthday)
            == Failure(Rejected([InvalidPassportNumber, IncorrectPassportNumber]))
  {
    assert ParseErrors(passportText, None) == [InvalidPassportNumber];
    assert FieldCheck(cfg, Some(name), Some(surname), patronymic, 0) == Returns(Some(IncorrectPassportNumber));
    assert ParseLong(passportText).GetOr(0) == 0;
    var c := CheckValues(cfg, Some(name), Some(surname), patronymic, 0, birthday, [InvalidPassportNumber]);
    assert c.Returns?;
    assert c.value.errors == [InvalidPassportNumber, IncorrectPassportNumber];
    assert Construct(cfg, Some(name), Some(surname), patronymic, passportText, birthday, [InvalidPassportNumber])
           == Failure(Rejected(c.value.errors));
  }

  /** Only the first failing rule is named: a bad name hides every later fault. */
  lemma BadNameHidesLaterFaults(cfg: Config, name: string, surname: Option<string>,
                                patronymic: Option<string>, passportText: string, birthday: DateTime)
    requires !WellFormedName(name) && ParseLong(Some(passportText)).Some?
    ensures NewSubjectOn(cfg, Some(name), surname, patronymic, Some(passportText), birthday)
            == Failure(Rejected([IncorrectFirstName]))
  {
  }

  /**
   * A null name: the desktop copy reports it, the console copy's string
   * constructor throws a NullReferenceException whatever the other fields hold.
   */
  lemma NullNameHandling(surname: Option<string>, patronymic: Option<string>, passportText: string,
                         birthdayText: Option<string>, birthday: DateTime)
    requires ParseLong(Some(passportText)).Some?
    ensures NewSubjectOn(Desktop, None, surname, patronymic, Some(passportText), birthday)
            == Failure(Rejected([IncorrectFirstName]))
    ensures NewSubject(Desktop, None, surname, patronymic, Some(passportText), Some(FormatInvariant(birthday)))
            == Failure(Rejected([IncorrectFirstName]))
    ensures NewSubject(Console, None, surname, patronymic, Some(passportText), birthdayText)
            == Failure(NullReferenceThrown)
  {
    ParseFormatted(birthday);
  }

  /**
   * The desktop form's name, surname, patronymic and passport predicates
   * together decide the constructor; the form's fifth, `CheckBirthday`, is
   * not part of that decision.
   */
  lemma FormPredicatesMatchConstructor(name: Option<string>, surname: Option<string>,
                                       patronymic: Option<string>, passportText: Option<string>,
                                       birthday: DateTime)
    ensures NewSubjectOn(Desktop, name, surname, patronymic, passportText, birthday).Success?
            <==> CheckName(name) && CheckSurname(surname) && CheckPatronymic(patronymic)
                 && CheckPassportNumber(passportText)
  {
  }

  /** The constructors never look at the birthday: 1900-01-01 fails `CheckBirthday` yet is accepted. */
  lemma BirthdayFloorAccepted()
    ensures !CheckBirthday(BirthdayFloor)
    ensures CheckBirthday(Date(1900, 1, 2))
    ensures NewSubjectOn(Desktop, Some([FirstLetter]), Some([FirstLetter]), None,
                         Some(LongText(101000001)), BirthdayFloor).Success?
  {
    ParseLongText(101000001);
  }
}
