/**
  The helpers of `utils.py` the web application uses on uploads and patient
  records: the upload-extension check, the required-column check of a
  patient import, patient ids, ages, and the phone and email validators.
  The clock is a parameter: `generate_patient_id` and `calculate_age` take
  the current time and date instead of reading them.
*/
module Utils {
  import opened Wrappers
  import opened Frames

  // ---------------------------------------------------------------------
  // Characters

  predicate IsDigit(c: char) {
    '0' <= c <= '9'
  }

  predicate IsLetter(c: char) {
    'a' <= c <= 'z' || 'A' <= c <= 'Z'
  }

  predicate AllDigits(s: string) {
    forall i :: 0 <= i < |s| ==> IsDigit(s[i])
  }

  /** ASCII lower-casing.  For the membership test below it agrees with
      Python's Unicode `str.lower`: no other character lower-cases to one of
      the ASCII letters of the extensions. */
  function LowerChar(c: char): char {
    if 'A' <= c <= 'Z' then (c as int + 32) as char else c
  }

  function Lower(s: string): (r: string)
    ensures |r| == |s|
    ensures forall i :: 0 <= i < |s| ==> r[i] == LowerChar(s[i])
  {
    seq(|s|, i requires 0 <= i < |s| => LowerChar(s[i]))
  }

  // ---------------------------------------------------------------------
  // allowed_file

  const AllowedExtensions: set<string> := {"csv", "xlsx", "xls"}

  /** Position of the last '.', if any. */
  function LastDot(s: string): (r: Option<nat>)
    ensures r.Some? ==> r.value < |s| && s[r.value] == '.' && forall j :: r.value < j < |s| ==> s[j] != '.'
    ensures r.None? <==> '.' !in s
  {
    if s == [] then None
    else if s[|s| - 1] == '.' then Some(|s| - 1)
    else
      var r := LastDot(s[..|s| - 1]);
      assert '.' in s[..|s| - 1] <==> '.' in s by {
        assert s == s[..|s| - 1] + [s[|s| - 1]];
      }
      r
  }

  /** `filename.rsplit('.', 1)[1]` */
  function AfterLastDot(s: string): string
    requires '.' in s
  {
    s[LastDot(s).value + 1..]
  }

  /** `allowed_file`: the name has a '.' and the text after the last one,
      lower-cased, is csv, xlsx or xls. */
  function AllowedFile(filename: string): (ok: bool)
    ensures ok ==> '.' in filename && 3 <= |AfterLastDot(filename)| <= 4
  {
    '.' in filename && Lower(AfterLastDot(filename)) in AllowedExtensions
  }

  /** A name is allowed exactly when some '.' with no '.' after it is followed
      by csv, xlsx or xls in any mix of cases. */
  lemma AllowedFileIff(s: string)
    ensures AllowedFile(s) <==>
      exists i :: 0 <= i < |s| && s[i] == '.' && (forall j :: i < j < |s| ==> s[j] != '.')
                  && Lower(s[i + 1..]) in AllowedExtensions
  {
    if AllowedFile(s) {
      var k := LastDot(s).value;
      assert AfterLastDot(s) == s[k + 1..];
      assert s[k] == '.' && (forall j :: k < j < |s| ==> s[j] != '.') && Lower(s[k + 1..]) in AllowedExtensions;
    }
    if exists i :: 0 <= i < |s| && s[i] == '.' && (forall j :: i < j < |s| ==> s[j] != '.')
                   && Lower(s[i + 1..]) in AllowedExtensions {
      var i :| 0 <= i < |s| && s[i] == '.' && (forall j :: i < j < |s| ==> s[j] != '.')
               && Lower(s[i + 1..]) in AllowedExtensions;
      LastDotUnique(s, i);
      assert AfterLastDot(s) == s[i + 1..];
    }
  }

  /** A '.' with no '.' after it is the last '.'. */
  lemma LastDotUnique(s: string, i: int)
    requires 0 <= i < |s| && s[i] == '.' && forall j :: i < j < |s| ==> s[j] != '.'
    ensures LastDot(s) == Some(i)
  {
    var k := LastDot(s).value;
    assert s[k] == '.';
  }

  /** Whatever comes before the last '.', only the extension decides. */
  lemma AllowedFileOfName(base: string, ext: string)
    requires '.' !in ext
    ensures AllowedFile(base + "." + ext) <==> Lower(ext) in AllowedExtensions
  {
    var s := base + "." + ext;
    assert s[|base|] == '.';
    assert forall j :: |base| < j < |s| ==> s[j] == ext[j - |base| - 1];
    assert s[|base| + 1..] == ext;
    AllowedFileIff(s);
  }

  /** The extension's case does not matter ("a.XLSX"), the base name may be
      empty (".csv"), and dots before the last one do not matter
      ("cases.2024.xls"): all three are accepted. */
  lemma AllowedFileAccepts(name: string)
    requires name == "a.XLSX" || name == ".csv" || name == "cases.2024.xls"
    ensures AllowedFile(name)
  {
    if name == "a.XLSX" {
      LastDotUnique(name, 1);
      assert AfterLastDot(name) == "XLSX";
      var l := Lower("XLSX");
      assert l[0] == 'x' && l[1] == 'l' && l[2] == 's' && l[3] == 'x';
      assert l == "xlsx";
    } else if name == ".csv" {
      LastDotUnique(name, 0);
      assert AfterLastDot(name) == "csv";
      var l := Lower("csv");
      assert l[0] == 'c' && l[1] == 's' && l[2] == 'v';
      assert l == "csv";
    } else {
      LastDotUnique(name, 10);
      assert AfterLastDot(name) == "xls";
      var l := Lower("xls");
      assert l[0] == 'x' && l[1] == 'l' && l[2] == 's';
      assert l == "xls";
    }
  }

  /** "csv" (no '.'), "a.csv.zip" (the last extension counts) and "a." are
      rejected. */
  lemma AllowedFileRejects(name: string)
    requires name == "csv" || name == "a.csv.zip" || name == "a."
    ensures !AllowedFile(name)
  {
    if name == "csv" {
      assert name[0] != '.' && name[1] != '.' && name[2] != '.';
    } else if name == "a.csv.zip" {
      LastDotUnique(name, 5);
      assert name[6..] == "zip";
      assert Lower("zip")[0] == 'z';
    } else {
      LastDotUnique(name, 1);
    }
  }

  // ---------------------------------------------------------------------
  // import_patient_data: the required-column check

  const RequiredColumns: seq<string> := ["patient_id", "name", "age", "gender", "contact"]

  const MissingColumns := "Missing required columns"

  /** `all(col in columns for col in required)` */
  function AllIn(required: seq<string>, columns: seq<string>): (r: bool)
    ensures r <==> forall c :: c in required ==> c in columns
  {
    required == [] || (required[0] in columns && AllIn(required[1..], columns))
  }

  /** The `(ok, value)` pair of the import after reading: the frame itself,
      or the message naming the failure. */
  function ImportCheck(t: Table): (r: Result<Table, string>)
    ensures r.Ok? ==> r.value == t
    ensures r.Err? ==> r.error == MissingColumns
  {
    if !AllIn(RequiredColumns, t.columns) then Err(MissingColumns) else Ok(t)
  }

  /** The import fails exactly when one of the five required columns is
      absent; extra columns and column order do not matter. */
  lemma ImportCheckIff(t: Table)
    ensures ImportCheck(t).Err? <==>
      ("patient_id" !in t.columns || "name" !in t.columns || "age" !in t.columns
       || "gender" !in t.columns || "contact" !in t.columns)
  {
    assert forall c :: c in RequiredColumns <==> c in {"patient_id", "name", "age", "gender", "contact"};
  }

  // ---------------------------------------------------------------------
  // generate_patient_id

  /** The clock reading `datetime.now()` would give. */
  datatype DateTime = DateTime(year: int, month: int, day: int, hour: int, minute: int, second: int) {
    predicate Valid() {
      1 <= year <= 9999 && 1 <= month <= 12 && 1 <= day <= 31
      && 0 <= hour <= 23 && 0 <= minute <= 59 && 0 <= second <= 59
    }
  }

  function DigitChar(d: int): (c: char)
    requires 0 <= d <= 9
    ensures IsDigit(c)
  {
    ('0' as int + d) as char
  }

  /** The number a string of digits spells. */
  function DigitsValue(s: string): nat
    requires AllDigits(s)
  {
    if s == [] then 0 else DigitsValue(s[..|s| - 1]) * 10 + (s[|s| - 1] as int - '0' as int)
  }

  /** `%Y`: the year in decimal, without leading zeros. */
  function Decimal(n: nat): (s: string)
    ensures |s| >= 1 && AllDigits(s)
    ensures n < 10 ==> |s| == 1
    ensures 10 <= n < 100 ==> |s| == 2
    ensures 100 <= n < 1000 ==> |s| == 3
    ensures 1000 <= n < 10000 ==> |s| == 4
  {
    if n < 10 then [DigitChar(n)] else Decimal(n / 10) + [DigitChar(n % 10)]
  }

  /** `%m`, `%d`, `%H`, `%M`, `%S`: two digits, zero-padded. */
  function Pad2(n: int): (s: string)
    requires 0 <= n <= 99
    ensures |s| == 2 && AllDigits(s)
  {
    [DigitChar(n / 10), DigitChar(n % 10)]
  }

  lemma {:induction false} DecimalValue(n: nat)
    ensures DigitsValue(Decimal(n)) == n
  {
    if n >= 10 {
      DecimalValue(n / 10);
      var s := Decimal(n);
      assert s[..|s| - 1] == Decimal(n / 10);
    }
  }

  lemma Pad2Value(n: int)
    requires 0 <= n <= 99
    ensures DigitsValue(Pad2(n)) == n
  {
    var s := Pad2(n);
    assert s[..1][..0] == [];
    assert DigitsValue(s[..1]) == n / 10;
    assert s[1] as int - '0' as int == n % 10;
  }

  /** `f"PAT{now:%Y%m%d%H%M%S}"` */
  function GeneratePatientId(now: DateTime): (id: string)
    requires now.Valid()
    ensures 14 <= |id| <= 17 && id[..3] == "PAT" && AllDigits(id[3..])
  {
    "PAT" + Decimal(now.year) + Pad2(now.month) + Pad2(now.day) + Pad2(now.hour) + Pad2(now.minute) + Pad2(now.second)
  }

  /** Reads the clock reading back out of a patient id. */
  function ParsePatientId(id: string): Option<DateTime> {
    if |id| == 17 && id[..3] == "PAT" && AllDigits(id[3..]) then
      Some(DateTime(DigitsValue(id[3..7]), DigitsValue(id[7..9]), DigitsValue(id[9..11]),
                    DigitsValue(id[11..13]), DigitsValue(id[13..15]), DigitsValue(id[15..17])))
    else None
  }

  /** From year 1000 on, an id is "PAT" and 14 digits, and it spells out the
      clock reading it was made from. */
  lemma PatientIdRoundTrip(now: DateTime)
    requires now.Valid() && now.year >= 1000
    ensures |GeneratePatientId(now)| == 17
    ensures GeneratePatientId(now)[..3] == "PAT" && AllDigits(GeneratePatientId(now)[3..])
    ensures ParsePatientId(GeneratePatientId(now)) == Some(now)
  {
    var y, mo, d, h, mi, se := Decimal(now.year), Pad2(now.month), Pad2(now.day), Pad2(now.hour), Pad2(now.minute), Pad2(now.second);
    var id := GeneratePatientId(now);
    var p0 := "PAT";
    var p1 := p0 + y;
    var p2 := p1 + mo;
    var p3 := p2 + d;
    var p4 := p3 + h;
    var p5 := p4 + mi;
    assert id == p5 + se;
    assert |p1| == 7 && |p2| == 9 && |p3| == 11 && |p4| == 13 && |p5| == 15;
    assert id[15..17] == se;
    assert id[..15] == p5;
    assert id[13..15] == mi by { assert p5[13..15] == mi; }
    assert id[..13] == p4;
    assert id[11..13] == h by { assert p4[11..13] == h; }
    assert id[..11] == p3;
    assert id[9..11] == d by { assert p3[9..11] == d; }
    assert id[..9] == p2;
    assert id[7..9] == mo by { assert p2[7..9] == mo; }
    assert id[..7] == p1;
    assert id[3..7] == y by { assert p1[3..7] == y; }
    DecimalValue(now.year);
    Pad2Value(now.month);
    Pad2Value(now.day);
    Pad2Value(now.hour);
    Pad2Value(now.minute);
    Pad2Value(now.second);
  }

  /** Two different clock readings from year 1000 on give different ids; ids
      made within the same second coincide. */
  lemma PatientIdInjective(a: DateTime, b: DateTime)
    requires a.Valid() && b.Valid() && a.year >= 1000 && b.year >= 1000
    ensures GeneratePatientId(a) == GeneratePatientId(b) <==> a == b
  {
    PatientIdRoundTrip(a);
    PatientIdRoundTrip(b);
  }

  // ---------------------------------------------------------------------
  // calculate_age

  datatype Date = Date(year: int, month: int, day: int)

  /** Python's tuple comparison `(m1, d1) < (m2, d2)`. */
  predicate MonthDayBefore(m1: int, d1: int, m2: int, d2: int) {
    m1 < m2 || (m1 == m2 && d1 < d2)
  }

  /** `a <= b` on dates, compared field by field. */
  predicate NotAfter(a: Date, b: Date) {
    a.year < b.year || (a.year == b.year && !MonthDayBefore(b.month, b.day, a.month, a.day))
  }

  /** `today.year - birth.year - ((today.month, today.day) < (birth.month, birth.day))` */
  function CalculateAge(birth: Date, today: Date): (age: int)
    ensures today.year - birth.year - 1 <= age <= today.year - birth.year
  {
    today.year - birth.year - (if MonthDayBefore(today.month, today.day, birth.month, birth.day) then 1 else 0)
  }

  /** The n-th anniversary of a birth date. */
  function Anniversary(birth: Date, n: int): Date {
    Date(birth.year + n, birth.month, birth.day)
  }

  /** The age is the number of anniversaries reached: the age-th anniversary
      is not after today and the next one is; no other number has this
      property. */
  lemma AgeIsAnniversariesReached(birth: Date, today: Date, n: int)
    ensures NotAfter(Anniversary(birth, CalculateAge(birth, today)), today)
    ensures !NotAfter(Anniversary(birth, CalculateAge(birth, today) + 1), today)
    ensures NotAfter(Anniversary(birth, n), today) && !NotAfter(Anniversary(birth, n + 1), today)
            ==> n == CalculateAge(birth, today)
  {
  }

  /** One less than the year difference exactly when this year's birthday is
      still ahead; the exact difference on the birthday itself; never
      negative for a birth date not after today. */
  lemma AgeFacts(birth: Date, today: Date)
    ensures CalculateAge(birth, today) == today.year - birth.year - 1 <==>
      MonthDayBefore(today.month, today.day, birth.month, birth.day)
    ensures today.month == birth.month && today.day == birth.day ==>
      CalculateAge(birth, today) == today.year - birth.year
    ensures NotAfter(birth, today) ==> CalculateAge(birth, today) >= 0
  {
  }

  // ---------------------------------------------------------------------
  // validate_phone_number: ^\+?1?\d{9,15}$

  /** The remainders an optional character `c?` leaves, in the order the
      regular-expression engine tries them. */
  function Optional(c: char, s: string): (r: seq<string>)
    ensures s in r
  {
    if |s| > 0 && s[0] == c then [s[1..], s] else [s]
  }

  /** `\d{lo,hi}$` on what is left. */
  predicate DigitRun(s: string, lo: nat, hi: nat) {
    lo <= |s| <= hi && AllDigits(s)
  }

  predicate ValidatePhoneNumber(phone: string)
    ensures ValidatePhoneNumber(phone) ==> 9 <= |phone| <= 17
  {
    exists r1 :: r1 in Optional('+', phone) && exists r2 :: r2 in Optional('1', r1) && DigitRun(r2, 9, 15)
  }

  /** The number with a leading '+' removed. */
  function PhoneDigits(phone: string): string {
    if |phone| > 0 && phone[0] == '+' then phone[1..] else phone
  }

  /** A phone number is valid exactly when, after an optional '+', it is all
      digits and 9 to 15 of them, or 16 starting with 1 (the optional country
      code 1 absorbs one digit). */
  lemma ValidatePhoneNumberIff(phone: string)
    ensures ValidatePhoneNumber(phone) <==>
      var d := PhoneDigits(phone);
      AllDigits(d) && (9 <= |d| <= 15 || (|d| == 16 && d[0] == '1'))
  {
    var d := PhoneDigits(phone);
    if AllDigits(d) && 9 <= |d| <= 15 {
      assert d in Optional('+', phone);
      assert d in Optional('1', d) && DigitRun(d, 9, 15);
    }
    if AllDigits(d) && |d| == 16 && d[0] == '1' {
      assert d in Optional('+', phone);
      assert d[1..] in Optional('1', d) && DigitRun(d[1..], 9, 15);
    }
    if ValidatePhoneNumber(phone) {
      var r1 :| r1 in Optional('+', phone) && exists r2 :: r2 in Optional('1', r1) && DigitRun(r2, 9, 15);
      var r2 :| r2 in Optional('1', r1) && DigitRun(r2, 9, 15);
      // a kept '+' would have to match `1?` or `\d`
      assert |r1| > 0 && IsDigit(r1[0]) by {
        if r2 == r1 {
          assert IsDigit(r2[0]);
        }
      }
      assert r1 == d;
      if r2 != r1 {
        assert r1 == [r1[0]] + r2;
        forall i | 0 <= i < |r1| ensures IsDigit(r1[i]) {
          if i > 0 {
            assert r1[i] == r2[i - 1];
          }
        }
      }
    }
  }

  /** An international number and sixteen digits after a leading 1 are
      accepted. */
  lemma PhoneAccepted(phone: string)
    requires phone == "+919876543210" || phone == "1234567890123456"
    ensures ValidatePhoneNumber(phone)
  {
    ValidatePhoneNumberIff(phone);
  }

  /** Sixteen digits not starting with 1, eight digits, and a dash are
      rejected. */
  lemma PhoneRejected(phone: string)
    requires phone == "2234567890123456" || phone == "12345678" || phone == "98765-43210"
    ensures !ValidatePhoneNumber(phone)
  {
    ValidatePhoneNumberIff(phone);
    if phone == "98765-43210" {
      assert !IsDigit(phone[5]);
    }
  }

  // ---------------------------------------------------------------------
  // validate_email: ^[a-zA-Z0-9._%+-]+@[a-zA-Z0-9.-]+\.[a-zA-Z]{2,}$

  /** `[a-zA-Z0-9._%+-]` */
  predicate LocalChar(c: char) {
    IsLetter(c) || IsDigit(c) || c == '.' || c == '_' || c == '%' || c == '+' || c == '-'
  }

  /** `[a-zA-Z0-9.-]` */
  predicate DomainChar(c: char) {
    IsLetter(c) || IsDigit(c) || c == '.' || c == '-'
  }

  /** The pattern with '@' at i and the '.' before the top-level part at k:
      a non-empty local part, '@', a non-empty domain part, '.' and two or
      more letters. */
  predicate EmailSplit(s: string, i: int, k: int) {
    && 0 < i && i + 1 < k && k + 2 < |s| && s[i] == '@' && s[k] == '.'
    && (forall j :: 0 <= j < i ==> LocalChar(s[j]))
    && (forall j :: i < j < k ==> DomainChar(s[j]))
    && (forall j :: k < j < |s| ==> IsLetter(s[j]))
  }

  /** The strings the pattern matches: those with some split. */
  ghost predicate EmailPattern(s: string) {
    exists i, k :: EmailSplit(s, i, k)
  }

  /** Position of the first occurrence of c, if any. */
  function FirstIndex(s: string, c: char): (r: Option<nat>)
    ensures r.Some? ==> r.value < |s| && s[r.value] == c && forall j :: 0 <= j < r.value ==> s[j] != c
    ensures r.None? <==> c !in s
  {
    if s == [] then None
    else if s[0] == c then Some(0)
    else
      match FirstIndex(s[1..], c)
      case Some(j) => Some(j + 1)
      case None => None
  }

  /** An occurrence of c with none before it is the first one. */
  lemma FirstIndexAt(s: string, c: char, i: int)
    requires 0 <= i < |s| && s[i] == c && forall j :: 0 <= j < i ==> s[j] != c
    ensures FirstIndex(s, c) == Some(i)
  {
    var f := FirstIndex(s, c).value;
    assert s[f] == c;
  }

  /** The matcher: since neither part before the top-level part can hold '@'
      and the top-level part cannot hold '.', the '@' is the first '@' and
      the '.' is the last '.'. */
  predicate ValidateEmail(email: string)
    ensures ValidateEmail(email) ==> '@' in email && '.' in email && |email| >= 6
  {
    match (FirstIndex(email, '@'), LastDot(email))
    case (Some(i), Some(k)) => EmailSplit(email, i, k)
    case _ => false
  }

  /** The matcher accepts exactly the strings of the pattern: any split has
      its '@' at the first '@' and its '.' at the last '.'. */
  lemma ValidateEmailIff(email: string)
    ensures ValidateEmail(email) <==> EmailPattern(email)
  {
    if EmailPattern(email) {
      var i, k :| EmailSplit(email, i, k);
      SplitIsFirstAtLastDot(email, i, k);
    }
  }

  lemma SplitIsFirstAtLastDot(email: string, i: int, k: int)
    requires EmailSplit(email, i, k)
    ensures FirstIndex(email, '@') == Some(i) && LastDot(email) == Some(k)
  {
    var f := FirstIndex(email, '@').value;
    assert email[i] == '@';
    assert f <= i;
    assert !LocalChar(email[f]);
    var l := LastDot(email).value;
    assert email[k] == '.';
    assert l >= k;
    assert !IsLetter(email[l]);
  }

  /** Dots may also appear inside the domain part: "a@b.co.uk" is accepted. */
  lemma EmailAccepted()
    ensures ValidateEmail("a@b.co.uk")
  {
    var s := "a@b.co.uk";
    assert EmailSplit(s, 1, 6);
    ValidateEmailIff(s);
  }

  /** The top-level part must be two or more letters: "a@b.c1" and "a@b.c"
      are rejected. */
  lemma EmailTopLevelRejected()
    ensures !ValidateEmail("a@b.c1") && !ValidateEmail("a@b.c")
  {
    var t := "a@b.c1";
    assert LastDot(t) == Some(3);
    assert !IsLetter(t[5]);
    var u := "a@b.c";
    assert LastDot(u) == Some(3);
  }

  /** The local part must be non-empty ("@b.com") and there is exactly one
      '@' ("a@@b.com"): both are rejected. */
  lemma EmailAtRejected(email: string)
    requires email == "@b.com" || email == "a@@b.com"
    ensures !ValidateEmail(email)
  {
    if email == "@b.com" {
      FirstIndexAt(email, '@', 0);
    } else {
      FirstIndexAt(email, '@', 1);
      assert !DomainChar(email[2]);
    }
  }
}
