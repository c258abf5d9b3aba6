/**
 * AuthManager and ProfileManager of backend/auth.py: the input validators
 * of the sign-up form, the order in which registration and login report
 * their first failure, and the profile update that only touches the keys
 * it is given. The user and profile tables live in one `Accounts` object.
 */
module Accounts {
  import opened Wrappers
  import opened Text

  /** `(True, None)` or `(False, message)`. */
  datatype Verdict = Accept | Reject(message: string)

  /** A row of the users table. */
  datatype User = User(
    id: nat,
    fullName: string,
    email: string,
    phone: string,
    passwordHash: string,
    isActive: bool,
    lastLogin: Option<int>)

  // ---------------------------------------------------------------------
  // The email grammar `^[a-zA-Z0-9._%+-]+@[a-zA-Z0-9.-]+\.[a-zA-Z]{2,}$`

  predicate IsLocalChar(c: char) {
    IsAsciiLetter(c) || IsDigit(c) || c == '.' || c == '_' || c == '%' || c == '+' || c == '-'
  }

  predicate IsDomainChar(c: char) {
    IsAsciiLetter(c) || IsDigit(c) || c == '.' || c == '-'
  }

  predicate AllLocal(s: string) { forall i :: 0 <= i < |s| ==> IsLocalChar(s[i]) }

  predicate AllDomain(s: string) { forall i :: 0 <= i < |s| ==> IsDomainChar(s[i]) }

  predicate AllLetters(s: string) { forall i :: 0 <= i < |s| ==> IsAsciiLetter(s[i]) }

  /** `s` splits at `at` and `dot` into a local part, `@`, a domain, `.` and a top-level domain of two letters or more. */
  predicate IsEmailSplit(s: string, at: int, dot: int) {
    && 1 <= at && at + 2 <= dot && dot + 3 <= |s|
    && s[at] == '@' && s[dot] == '.'
    && AllLocal(s[..at]) && AllDomain(s[at + 1..dot]) && AllLetters(s[dot + 1..])
  }

  /** The whole of `s` is an address of the grammar. */
  ghost predicate EmailShape(s: string) {
    exists at, dot :: IsEmailSplit(s, at, dot)
  }

  /** `re.match` with a final `$`, which also matches just before a trailing newline. */
  ghost predicate MatchesEmailPattern(s: string) {
    EmailShape(s) || (|s| >= 1 && s[|s| - 1] == '\n' && EmailShape(s[..|s| - 1]))
  }

  /** The recogniser: the first `@` ends the local part, the last `.` starts the top-level domain. */
  function ShapeRecognised(s: string): bool {
    match (FirstIndex(s, '@'), LastIndex(s, '.'))
    case (Some(at), Some(dot)) => IsEmailSplit(s, at, dot)
    case _ => false
  }

  /** The recogniser accepts exactly the addresses of the grammar. */
  lemma RecogniserMatchesGrammar(s: string)
    ensures ShapeRecognised(s) <==> EmailShape(s)
  {
    if EmailShape(s) {
      var at, dot :| IsEmailSplit(s, at, dot);
      assert s[at] == '@' && s[dot] == '.';
    }
  }

  /** The full pattern test, trailing newline included. */
  function EmailAccepted(s: string): (b: bool)
    ensures b <==> MatchesEmailPattern(s)
  {
    var trimmed := if |s| >= 1 && s[|s| - 1] == '\n' then s[..|s| - 1] else s;
    RecogniserMatchesGrammar(s);
    RecogniserMatchesGrammar(trimmed);
    ShapeRecognised(s) || (|s| >= 1 && s[|s| - 1] == '\n' && ShapeRecognised(s[..|s| - 1]))
  }

  predicate EmailTaken(users: seq<User>, email: string) {
    exists i :: 0 <= i < |users| && users[i].email == email
  }

  predicate PhoneTaken(users: seq<User>, phone: string) {
    exists i :: 0 <= i < |users| && users[i].phone == phone
  }

  const EmailRequired: string := "Email is required"
  const EmailInvalid: string := "Invalid email format"
  const EmailRegistered: string := "Email already registered"

  /** validate_email: present, of the grammar, and its lower-case form not yet registered. */
  function ValidateEmail(email: string, users: seq<User>): (v: Verdict)
    ensures v == Accept <==> email != [] && MatchesEmailPattern(email) && !EmailTaken(users, Lower(email))
    ensures email == [] ==> v == Reject(EmailRequired)
    ensures email != [] && !MatchesEmailPattern(email) ==> v == Reject(EmailInvalid)
    ensures email != [] && MatchesEmailPattern(email) && EmailTaken(users, Lower(email)) ==> v == Reject(EmailRegistered)
    ensures v.Reject? ==> v.message in {EmailRequired, EmailInvalid, EmailRegistered}
  {
    if email == [] then Reject(EmailRequired)
    else if !EmailAccepted(email) then Reject(EmailInvalid)
    else if EmailTaken(users, Lower(email)) then Reject(EmailRegistered)
    else Accept
  }

  lemma AddressCharNotSpace(c: char)
    requires IsLocalChar(c) || c == '@'
    ensures !IsSpace(c)
  {
  }

  predicate NoSpace(s: string) {
    forall i :: 0 <= i < |s| ==> !IsSpace(s[i])
  }

  lemma ShapeCharsNotSpace(s: string)
    requires EmailShape(s)
    ensures NoSpace(s)
  {
    var at, dot :| IsEmailSplit(s, at, dot);
    forall i | 0 <= i < |s| ensures !IsSpace(s[i]) {
      var c := s[i];
      if i < at {
        assert c == s[..at][i];
      } else if at < i < dot {
        assert c == s[at + 1..dot][i - at - 1];
      } else if dot < i {
        assert c == s[dot + 1..][i - dot - 1];
      }
      AddressCharNotSpace(c);
    }
  }

  lemma LowerKeepsNoSpace(s: string)
    requires NoSpace(s)
    ensures NoSpace(Lower(s))
  {
    var lower := Lower(s);
    forall i | 0 <= i < |lower| ensures !IsSpace(lower[i]) {
      assert lower[i] == LowerChar(s[i]);
    }
  }

  /** An address of the grammar has no whitespace, so lower-casing and stripping it changes only its case. */
  lemma ShapeHasNoSpace(s: string)
    requires EmailShape(s)
    ensures NoSpace(Lower(s)) && Strip(Lower(s)) == Lower(s)
  {
    ShapeCharsNotSpace(s);
    LowerKeepsNoSpace(s);
  }

  // ---------------------------------------------------------------------
  // Phone, password and name

  /** `phone.replace(" ", "").replace("-", "")`. */
  function NormalisedPhone(phone: string): (r: string)
    ensures ' ' !in r && '-' !in r
    ensures |r| <= |phone|
  {
    Without(Without(phone, ' '), '-')
  }

  /** Normalising drops only spaces and hyphens: every other character occurs as often as before. */
  lemma NormalisedPhoneKeepsOthers(phone: string)
    ensures forall c :: c != ' ' && c != '-' ==> multiset(NormalisedPhone(phone))[c] == multiset(phone)[c]
  {
    WithoutKeepsOthers(phone, ' ');
    WithoutKeepsOthers(Without(phone, ' '), '-');
  }

  /** Normalising keeps order: a number typed in two pieces normalises piece by piece. */
  lemma NormalisedPhoneConcat(a: string, b: string)
    ensures NormalisedPhone(a + b) == NormalisedPhone(a) + NormalisedPhone(b)
  {
    WithoutConcat(a, b, ' ');
    WithoutConcat(Without(a, ' '), Without(b, ' '), '-');
  }

  const PhoneRequired: string := "Phone number is required"
  const PhoneFormat: string := "Phone number must be 10 digits"
  const PhoneRegistered: string := "Phone number already registered"

  /** validate_phone: present, ten digits once spaces and hyphens are dropped, and that number not registered. */
  function ValidatePhone(phone: string, users: seq<User>): (v: Verdict)
    ensures v == Accept <==>
      phone != [] && AllDigits(NormalisedPhone(phone)) && |NormalisedPhone(phone)| == 10
      && !PhoneTaken(users, NormalisedPhone(phone))
    ensures phone == [] ==> v == Reject(PhoneRequired)
    ensures phone != [] && !(AllDigits(NormalisedPhone(phone)) && |NormalisedPhone(phone)| == 10) ==> v == Reject(PhoneFormat)
    ensures (phone != [] && AllDigits(NormalisedPhone(phone)) && |NormalisedPhone(phone)| == 10
             && PhoneTaken(users, NormalisedPhone(phone))) ==> v == Reject(PhoneRegistered)
    ensures v.Reject? ==> v.message in {PhoneRequired, PhoneFormat, PhoneRegistered}
  {
    if phone == [] then Reject(PhoneRequired)
    else
      var digits := NormalisedPhone(phone);
      if !AllDigits(digits) || |digits| != 10 then Reject(PhoneFormat)
      else if PhoneTaken(users, digits) then Reject(PhoneRegistered)
      else Accept
  }

  /**
   * Spaces and hyphens do not matter: a number is judged as its normalised
   * form is, except one made only of separators, which is present but has
   * no digits.
   */
  lemma PhoneJudgedByDigits(phone: string, users: seq<User>)
    ensures NormalisedPhone(phone) != [] ==> ValidatePhone(phone, users) == ValidatePhone(NormalisedPhone(phone), users)
    ensures phone != [] && NormalisedPhone(phone) == [] ==> ValidatePhone(phone, users) == Reject(PhoneFormat)
  {
    var n := NormalisedPhone(phone);
    assert Without(n, ' ') == n;
    assert Without(Without(n, ' '), '-') == n;
  }

  const PasswordRequired: string := "Password is required"
  const PasswordShort: string := "Password must be at least 6 characters"

  /** validate_password: six characters or more. */
  function ValidatePassword(password: string): (v: Verdict)
    ensures v == Accept <==> |password| >= 6
    ensures password == [] ==> v == Reject(PasswordRequired)
    ensures 0 < |password| < 6 ==> v == Reject(PasswordShort)
  {
    if password == [] then Reject(PasswordRequired)
    else if |password| < 6 then Reject(PasswordShort)
    else Accept
  }

  const NameRequired: string := "Full name is required"
  const NameShort: string := "Name must be at least 3 characters"
  const NameCharacters: string := "Name can only contain letters and spaces"

  predicate LettersAndSpaces(s: string) {
    forall i :: 0 <= i < |s| ==> IsAsciiLetter(s[i]) || IsSpace(s[i])
  }

  /** validate_full_name: three characters or more, each a letter or whitespace. */
  function ValidateFullName(name: string): (v: Verdict)
    ensures v == Accept <==> |name| >= 3 && LettersAndSpaces(name)
    ensures name == [] ==> v == Reject(NameRequired)
    ensures 0 < |name| < 3 ==> v == Reject(NameShort)
    ensures |name| >= 3 && !LettersAndSpaces(name) ==> v == Reject(NameCharacters)
  {
    if name == [] then Reject(NameRequired)
    else if |name| < 3 then Reject(NameShort)
    else if !LettersAndSpaces(name) then Reject(NameCharacters)
    else Accept
  }

  /** A name of three blanks passes, and is stored as the empty string. */
  lemma BlankNameAccepted()
    ensures ValidateFullName("   ") == Accept && Strip("   ") == ""
  {
  }

  /** register_user's checks: name, then email, then phone, then password; the first failure is reported. */
  function RegistrationCheck(name: string, email: string, phone: string, password: string, users: seq<User>): (v: Verdict)
    ensures v == Accept <==>
      ValidateFullName(name) == Accept && ValidateEmail(email, users) == Accept
      && ValidatePhone(phone, users) == Accept && ValidatePassword(password) == Accept
    ensures ValidateFullName(name).Reject? ==> v == ValidateFullName(name)
    ensures ValidateFullName(name) == Accept && ValidateEmail(email, users).Reject? ==> v == ValidateEmail(email, users)
    ensures ValidateFullName(name) == Accept && ValidateEmail(email, users) == Accept && ValidatePhone(phone, users).Reject?
      ==> v == ValidatePhone(phone, users)
    ensures ValidateFullName(name) == Accept && ValidateEmail(email, users) == Accept && ValidatePhone(phone, users) == Accept
      ==> v == ValidatePassword(password)
    ensures v.Reject? ==> v.message != []
  {
    var name' := ValidateFullName(name);
    if name'.Reject? then name'
    else
      var email' := ValidateEmail(email, users);
      if email'.Reject? then email'
      else
        var phone' := ValidatePhone(phone, users);
        if phone'.Reject? then phone' else ValidatePassword(password)
  }

  /** The user row register_user builds; its phone is the normalised number the validator checked. */
  function NewUser(id: nat, name: string, email: string, phone: string, password: string, hash: string -> string): User {
    User(id, Strip(name), Strip(Lower(email)), NormalisedPhone(phone), hash(password), true, None)
  }

  /** The phone register_user stores as written: `phone.strip()`, spaces and hyphens inside kept. */
  function StoredPhoneAsWritten(phone: string): string {
    Strip(phone)
  }

  predicate PhonesNormalised(users: seq<User>) {
    forall i :: 0 <= i < |users| ==> NormalisedPhone(users[i].phone) == users[i].phone
  }

  /** With normalised numbers stored, the duplicate check refuses every spelling of a registered number. */
  lemma SameNumberRefused(phone: string, users: seq<User>, i: nat)
    requires PhonesNormalised(users) && i < |users|
    requires NormalisedPhone(phone) == users[i].phone
    ensures ValidatePhone(phone, users).Reject?
  {
    if phone != [] && AllDigits(NormalisedPhone(phone)) && |NormalisedPhone(phone)| == 10 {
      assert PhoneTaken(users, NormalisedPhone(phone));
    }
  }

  lemma DigitsHaveNoSeparator(x: string, y: string)
    requires AllDigits(x + y)
    ensures ' ' !in x && ' ' !in y && '-' !in x + y && ' ' !in x + y
    ensures x != [] ==> !IsSpace(x[0])
    ensures y != [] ==> !IsSpace(y[|y| - 1])
  {
    forall i | 0 <= i < |x| ensures IsDigit(x[i]) { assert x[i] == (x + y)[i]; }
    forall i | 0 <= i < |y| ensures IsDigit(y[i]) { assert y[i] == (x + y)[|x| + i]; }
  }

  lemma SpacedDigitsNormalise(x: string, y: string)
    requires AllDigits(x + y)
    ensures NormalisedPhone(x + " " + y) == x + y && NormalisedPhone(x + y) == x + y
  {
    DigitsHaveNoSeparator(x, y);
    WithoutConcat(x + " ", y, ' ');
    WithoutConcat(x, " ", ' ');
    assert Without(" ", ' ') == [];
    assert Without(x, ' ') == x && Without(y, ' ') == y;
    assert Without(x + " ", ' ') == x;
  }

  lemma SpacedDigitsStrip(x: string, y: string)
    requires x != [] && y != [] && AllDigits(x + y)
    ensures Strip(x + " " + y) == x + " " + y
  {
    DigitsHaveNoSeparator(x, y);
    var spaced := x + " " + y;
    assert spaced[0] == x[0] && spaced[|spaced| - 1] == y[|y| - 1];
    assert LeadingSpaces(spaced) == 0;
    assert TrailingSpaces(spaced) == 0;
    assert spaced[0..][..|spaced| - 0] == spaced;
  }

  /**
   * Stored as written, a number typed with a space ("98765 43210") does
   * not stop the same number typed without it ("9876543210") from being
   * registered again: the duplicate check looks for the digits, the table
   * holds the spaced spelling.
   */
  lemma AsWrittenPhoneRegisteredTwice(x: string, y: string, other: User)
    requires x != [] && y != [] && |x + y| == 10 && AllDigits(x + y)
    requires other.phone == StoredPhoneAsWritten(x + " " + y)
    ensures NormalisedPhone(x + " " + y) == x + y
    ensures ValidatePhone(x + " " + y, []) == Accept
    ensures ValidatePhone(x + y, [other]) == Accept
    ensures StoredPhoneAsWritten(x + y) != other.phone
  {
    SpacedDigitsNormalise(x, y);
    assert other.phone == x + " " + y by {
      SpacedDigitsStrip(x, y);
    }
    assert !PhoneTaken([], x + y);
    assert !PhoneTaken([other], x + y) by {
      assert |other.phone| == 11;
    }
    assert StoredPhoneAsWritten(x + y) == x + y by {
      DigitsHaveNoSeparator(x, y);
      assert LeadingSpaces(x + y) == 0 && TrailingSpaces(x + y) == 0;
      assert (x + y)[0..][..|x + y|] == x + y;
    }
  }

  const RegistrationFailed: string := "Registration failed. Please try again."
  const CredentialsRequired: string := "Email and password are required"
  const InvalidCredentials: string := "Invalid email or password"
  const Deactivated: string := "Account is deactivated. Please contact support."
  const ProfileUpdated: string := "Profile updated successfully"

  /** The index of the first user with the given email. */
  function FindByEmail(users: seq<User>, email: string): (r: Option<nat>)
    ensures r.None? <==> !EmailTaken(users, email)
    ensures r.Some? ==> r.value < |users| && users[r.value].email == email
    ensures r.Some? ==> forall j :: 0 <= j < r.value ==> users[j].email != email
  {
    if |users| == 0 then None
    else if users[0].email == email then Some(0)
    else
      var rest := FindByEmail(users[1..], email);
      if rest.None? then
        assert forall i :: 1 <= i < |users| ==> users[i] == users[1..][i - 1];
        None
      else Some(rest.value + 1)
  }

  /** login_user's decision: the index of the user who logs in, or the message. */
  function LoginDecision(users: seq<User>, email: string, password: string, checkPassword: (User, string) -> bool):
    (r: Result<nat, string>)
    ensures r.Ok? ==> (r.value < |users| && users[r.value].email == Strip(Lower(email))
                        && checkPassword(users[r.value], password) && users[r.value].isActive)
    ensures email == [] || password == [] ==> r == Err(CredentialsRequired)
    ensures email != [] && password != [] && FindByEmail(users, Strip(Lower(email))).Some? ==>
      var i := FindByEmail(users, Strip(Lower(email))).value;
      checkPassword(users[i], password) && users[i].isActive ==> r == Ok(i)
    ensures email != [] && password != [] && FindByEmail(users, Strip(Lower(email))).Some? ==>
      var i := FindByEmail(users, Strip(Lower(email))).value;
      checkPassword(users[i], password) && !users[i].isActive ==> r == Err(Deactivated)
  {
    if email == [] || password == [] then Err(CredentialsRequired)
    else
      match FindByEmail(users, Strip(Lower(email)))
      case None => Err(InvalidCredentials)
      case Some(i) =>
        if !checkPassword(users[i], password) then Err(InvalidCredentials)
        else if !users[i].isActive then Err(Deactivated)
        else Ok(i)
  }

  /** An unknown email and a wrong password give the same answer. */
  lemma LoginHidesWhichPartFailed(users: seq<User>, email: string, password: string, checkPassword: (User, string) -> bool)
    requires email != [] && password != []
    requires !EmailTaken(users, Strip(Lower(email)))
      || !checkPassword(users[FindByEmail(users, Strip(Lower(email))).value], password)
    ensures LoginDecision(users, email, password, checkPassword) == Err(InvalidCredentials)
  {
  }

  /** A deactivated account is reported only to whoever gave its password. */
  lemma DeactivatedOnlyAfterPassword(users: seq<User>, email: string, password: string, checkPassword: (User, string) -> bool)
    requires LoginDecision(users, email, password, checkPassword) == Err(Deactivated)
    ensures var i := FindByEmail(users, Strip(Lower(email)));
      i.Some? && checkPassword(users[i.value], password) && !users[i.value].isActive
  {
  }

  // ---------------------------------------------------------------------
  // Profiles

  /** A JSON value as the profile form sends it. */
  datatype Value = Null | Flag(b: bool) | Number(n: real) | Str(s: string)

  /** The columns update_profile may set, in the order it sets them. */
  datatype ProfileKey =
    | Age | Gender | BloodGroup | Height | Weight | Address | City | State | Pincode
    | EmergencyContact | EmergencyContactName | KnownAllergies | ChronicConditions | CurrentMedications | DeviceId
  {
    function Name(): string {
      match this
      case Age => "age"
      case Gender => "gender"
      case BloodGroup => "blood_group"
      case Height => "height"
      case Weight => "weight"
      case Address => "address"
      case City => "city"
      case State => "state"
      case Pincode => "pincode"
      case EmergencyContact => "emergency_contact"
      case EmergencyContactName => "emergency_contact_name"
      case KnownAllergies => "known_allergies"
      case ChronicConditions => "chronic_conditions"
      case CurrentMedications => "current_medications"
      case DeviceId => "device_id"
    }
  }

  /** A row of the user_profiles table; a column never set reads as NULL. */
  datatype Profile = Profile(userId: nat, columns: map<ProfileKey, Value>, deviceRegisteredAt: Option<int>) {
    function Get(k: ProfileKey): Value {
      if k in columns then columns[k] else Null
    }
  }

  function EmptyProfile(userId: nat): (p: Profile)
    ensures p.userId == userId && p.deviceRegisteredAt.None?
    ensures forall k :: p.Get(k) == Null
  {
    Profile(userId, map[], None)
  }

  /** `if key in profile_data: profile.key = profile_data[key]`. */
  function Assign(p: Profile, data: map<string, Value>, key: ProfileKey): (r: Profile)
    ensures r.userId == p.userId && r.deviceRegisteredAt == p.deviceRegisteredAt
    ensures r.Get(key) == if key.Name() in data then data[key.Name()] else p.Get(key)
    ensures forall k :: k != key ==> r.Get(k) == p.Get(k)
  {
    if key.Name() in data then p.(columns := p.columns[key := data[key.Name()]]) else p
  }

  /** The keys update_profile copies one by one, in its order; device_id comes last and is handled apart. */
  const ColumnKeys: seq<ProfileKey> := [Age, Gender, BloodGroup, Height, Weight, Address, City, State, Pincode,
    EmergencyContact, EmergencyContactName, KnownAllergies, ChronicConditions, CurrentMedications]

  lemma AllColumnKeys()
    ensures forall k :: k in ColumnKeys[..|ColumnKeys|] <==> k != DeviceId
  {
    assert ColumnKeys[..|ColumnKeys|] == ColumnKeys;
    forall k ensures k in ColumnKeys <==> k != DeviceId {
      match k
      case DeviceId =>
      case _ =>
    }
  }

  /** The guarded assignments of update_profile, key by key in the order of ColumnKeys. */
  method CopySupplied(p: Profile, data: map<string, Value>) returns (r: Profile)
    ensures r.userId == p.userId && r.deviceRegisteredAt == p.deviceRegisteredAt
    ensures forall k :: k != DeviceId ==> r.Get(k) == if k.Name() in data then data[k.Name()] else p.Get(k)
    ensures r.Get(DeviceId) == p.Get(DeviceId)
  {
    r := p;
    for j := 0 to |ColumnKeys|
      invariant r.userId == p.userId && r.deviceRegisteredAt == p.deviceRegisteredAt
      invariant forall k :: r.Get(k) == if k in ColumnKeys[..j] && k.Name() in data then data[k.Name()] else p.Get(k)
    {
      assert ColumnKeys[..j + 1] == ColumnKeys[..j] + [ColumnKeys[j]];
      r := Assign(r, data, ColumnKeys[j]);
    }
    AllColumnKeys();
  }

  /** The profile update_profile starts from: the stored one, or a new empty one. */
  function ProfileOf(profiles: map<nat, Profile>, userId: nat): Profile {
    if userId in profiles then profiles[userId] else EmptyProfile(userId)
  }

  // ---------------------------------------------------------------------
  // The tables

  /** Stamping one user's last login keeps every id, email and phone, so the unique columns still hold. */
  lemma StampKeepsKeys(users: seq<User>, i: nat, now: int)
    requires i < |users|
    requires forall k :: 0 <= k < |users| ==> users[k].id == k + 1
    requires forall k, j :: 0 <= k < j < |users| ==> users[k].email != users[j].email && users[k].phone != users[j].phone
    requires PhonesNormalised(users)
    ensures var stamped := users[i := users[i].(lastLogin := Some(now))];
      && (forall k :: 0 <= k < |stamped| ==> stamped[k].id == k + 1)
      && (forall k, j :: 0 <= k < j < |stamped| ==> stamped[k].email != stamped[j].email && stamped[k].phone != stamped[j].phone)
      && PhonesNormalised(stamped)
  {
    var stamped := users[i := users[i].(lastLogin := Some(now))];
    assert forall k :: 0 <= k < |users| ==>
      stamped[k].id == users[k].id && stamped[k].email == users[k].email && stamped[k].phone == users[k].phone;
  }

  /** A user whose email and phone are not yet taken, with the next id and a normalised phone, keeps the unique columns unique. */
  lemma AppendKeepsKeys(users: seq<User>, u: User)
    requires forall k :: 0 <= k < |users| ==> users[k].id == k + 1
    requires forall k, j :: 0 <= k < j < |users| ==> users[k].email != users[j].email && users[k].phone != users[j].phone
    requires PhonesNormalised(users)
    requires u.id == |users| + 1 && !EmailTaken(users, u.email) && !PhoneTaken(users, u.phone)
    requires NormalisedPhone(u.phone) == u.phone
    ensures var added := users + [u];
      && (forall k :: 0 <= k < |added| ==> added[k].id == k + 1)
      && (forall k, j :: 0 <= k < j < |added| ==> added[k].email != added[j].email && added[k].phone != added[j].phone)
      && PhonesNormalised(added)
  {
    var added := users + [u];
    forall k, j | 0 <= k < j < |added|
      ensures added[k].email != added[j].email && added[k].phone != added[j].phone
    {
      if j == |users| {
        assert added[k] == users[k];
      }
    }
  }

  class Accounts {
    var users: seq<User>
    /** user_profiles, keyed by its unique user_id column. */
    var profiles: map<nat, Profile>

    /** Ids are 1, 2, 3, ...; email and phone are unique columns; stored phones are normalised. */
    ghost predicate Valid()
      reads this
    {
      && (forall i :: 0 <= i < |users| ==> users[i].id == i + 1)
      && (forall i, j :: 0 <= i < j < |users| ==> users[i].email != users[j].email && users[i].phone != users[j].phone)
      && PhonesNormalised(users)
      && (forall u :: u in profiles ==> profiles[u].userId == u)
    }

    constructor ()
      ensures Valid() && users == [] && profiles == map[]
    {
      users := [];
      profiles := map[];
    }

    /**
     * register_user: the first failing check is reported; otherwise the
     * user and an empty profile are inserted. A unique column that the
     * checks did not protect (an email with a trailing newline, or a
     * profile already holding the new id) fails the insert and nothing is
     * stored. `hash` stands for bcrypt.
     */
    method Register(name: string, email: string, phone: string, password: string, hash: string -> string)
      returns (r: Result<nat, string>)
      requires Valid()
      modifies this
      ensures Valid()
      ensures var check := RegistrationCheck(name, email, phone, password, old(users));
        check.Reject? ==> r == Err(check.message) && users == old(users) && profiles == old(profiles)
      ensures RegistrationCheck(name, email, phone, password, old(users)) == Accept ==>
        var u := NewUser(|old(users)| + 1, name, email, phone, password, hash);
        if EmailTaken(old(users), u.email) || u.id in old(profiles) then
          r == Err(RegistrationFailed) && users == old(users) && profiles == old(profiles)
        else
          r == Ok(u.id) && users == old(users) + [u] && profiles == old(profiles)[u.id := EmptyProfile(u.id)]
    {
      var check := RegistrationCheck(name, email, phone, password, users);
      if check.Reject? {
        return Err(check.message);
      }
      var u := NewUser(|users| + 1, name, email, phone, password, hash);
      if EmailTaken(users, u.email) || u.id in profiles {
        return Err(RegistrationFailed);
      }
      assert !PhoneTaken(users, u.phone) && NormalisedPhone(u.phone) == u.phone by {
        assert ValidatePhone(phone, users) == Accept;
        assert Without(u.phone, ' ') == u.phone;
      }
      AppendKeepsKeys(users, u);
      users := users + [u];
      profiles := profiles[u.id := EmptyProfile(u.id)];
      r := Ok(u.id);
    }

    /**
     * login_user: the decision of LoginDecision, and on success the
     * user's last login is set to `now`. `checkPassword` stands for bcrypt.
     */
    method Login(email: string, password: string, checkPassword: (User, string) -> bool, now: int)
      returns (r: Result<nat, string>)
      requires Valid()
      modifies this
      ensures Valid() && profiles == old(profiles)
      ensures var d := LoginDecision(old(users), email, password, checkPassword);
        && (d.Err? ==> r == d && users == old(users))
        && (d.Ok? ==> r == Ok(d.value + 1))
        && (d.Ok? ==> users == old(users)[d.value := old(users)[d.value].(lastLogin := Some(now))])
    {
      var d := LoginDecision(users, email, password, checkPassword);
      if d.Err? {
        r := d;
      } else {
        var i := d.value;
        StampKeepsKeys(users, i, now);
        users := users[i := users[i].(lastLogin := Some(now))];
        r := Ok(i + 1);
        assert r == Ok(d.value + 1);
      }
    }

    /**
     * update_profile: the user's profile, created when missing, gets each
     * supplied key's value and keeps every other column; a supplied
     * device_id also stamps the registration time.
     */
    method UpdateProfile(userId: nat, data: map<string, Value>, now: int) returns (ok: bool, message: string)
      requires Valid()
      modifies this
      ensures Valid() && users == old(users)
      ensures ok && message == ProfileUpdated
      ensures userId in profiles && profiles == old(profiles)[userId := profiles[userId]]
      ensures var before, after := ProfileOf(old(profiles), userId), profiles[userId];
        && after.userId == userId
        && (forall k :: after.Get(k) == if k.Name() in data then data[k.Name()] else before.Get(k))
        && after.deviceRegisteredAt == if "device_id" in data then Some(now) else before.deviceRegisteredAt
    {
      var profile := CopySupplied(ProfileOf(profiles, userId), data);
      if DeviceId.Name() in data {
        profile := Assign(profile, data, DeviceId);
        profile := profile.(deviceRegisteredAt := Some(now));
      }
      profiles := profiles[userId := profile];
      ok, message := true, ProfileUpdated;
    }
  }

  lemma {:induction false} FindAppended(users: seq<User>, u: User)
    requires !EmailTaken(users, u.email)
    ensures FindByEmail(users + [u], u.email) == Some(|users|)
  {
    if users != [] {
      assert (users + [u])[1..] == users[1..] + [u];
      assert !EmailTaken(users[1..], u.email) by {
        forall i | 0 <= i < |users[1..]| ensures users[1..][i].email != u.email {
          assert users[1..][i] == users[i + 1];
        }
      }
      FindAppended(users[1..], u);
    }
  }

  /** A registered user is found again by login under the address they signed up with. */
  lemma RegisteredUserCanLogIn(users: seq<User>, name: string, email: string, phone: string, password: string,
                               hash: string -> string, checkPassword: (User, string) -> bool)
    requires RegistrationCheck(name, email, phone, password, users) == Accept
    requires var u := NewUser(|users| + 1, name, email, phone, password, hash);
      !EmailTaken(users, u.email) && checkPassword(u, password)
    ensures LoginDecision(users + [NewUser(|users| + 1, name, email, phone, password, hash)], email, password, checkPassword)
         == Ok(|users|)
  {
    var u := NewUser(|users| + 1, name, email, phone, password, hash);
    assert ValidateEmail(email, users) == Accept && ValidatePassword(password) == Accept;
    assert email != [] && password != [];
    FindAppended(users, u);
  }

  /** Without a trailing newline, an accepted address is stored exactly as the duplicate check looked it up. */
  lemma StoredEmailIsLookupKey(email: string, users: seq<User>)
    requires ValidateEmail(email, users) == Accept && email[|email| - 1] != '\n'
    ensures Strip(Lower(email)) == Lower(email) && !EmailTaken(users, Strip(Lower(email)))
  {
    ShapeHasNoSpace(email);
  }

  lemma StripTrailingNewline(t: string)
    requires t != [] && forall i :: 0 <= i < |t| ==> !IsSpace(t[i])
    ensures Strip(t + "\n") == t
  {
    var s := t + "\n";
    assert s[..|s| - 1] == t;
    assert TrailingSpaces(s) == 1;
    assert LeadingSpaces(s) == 0 by {
      assert s[0] == t[0];
    }
  }

  /**
   * An address of the grammar followed by a newline passes validate_email
   * when only the bare address is registered, and register_user then
   * strips it into the registered address: the unique email column, not
   * the validator, refuses it.
   */
  lemma TrailingNewlineCollides(e: string, users: seq<User>)
    requires EmailShape(e) && EmailTaken(users, Lower(e)) && !EmailTaken(users, Lower(e) + "\n")
    ensures ValidateEmail(e + "\n", users) == Accept
    ensures Strip(Lower(e + "\n")) == Lower(e) && EmailTaken(users, Strip(Lower(e + "\n")))
  {
    var s := e + "\n";
    assert MatchesEmailPattern(s) by {
      assert s[..|s| - 1] == e;
    }
    assert Lower(s) == Lower(e) + "\n" by {
      assert LowerChar('\n') == '\n';
    }
    assert Strip(Lower(s)) == Lower(e) by {
      ShapeHasNoSpace(e);
      var at, dot :| IsEmailSplit(e, at, dot);
      StripTrailingNewline(Lower(e));
    }
  }
}
