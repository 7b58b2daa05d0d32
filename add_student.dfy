/**
 * The administrator's add-student form: the field values, which fields were
 * touched, the per-field error messages, the validation that fills them, the
 * multipart payload sent on submit and the message shown when the submit fails.
 */
module AddStudent {
  import opened Wrappers
  import opened Values
  import opened Text
  import opened Seqs
  import opened Timeline

  /** The keys of the `student` object, in their declaration order. */
  datatype Field = Name | RegisterNo | Room | Year | StudentClass | Gender | Dob | Address | Email | Phone | ProfilePicture

  const Keys: seq<Field> := [Name, RegisterNo, Room, Year, StudentClass, Gender, Dob, Address, Email, Phone, ProfilePicture]

  function KeyName(f: Field): string
  {
    match f
    case Name => "name"
    case RegisterNo => "register_no"
    case Room => "room"
    case Year => "year"
    case StudentClass => "student_class"
    case Gender => "gender"
    case Dob => "dob"
    case Address => "address"
    case Email => "email"
    case Phone => "phone"
    case ProfilePicture => "profile_picture"
  }

  /** The picked image asset: its `uri`, `type` and `fileName`, each possibly missing. */
  datatype Asset = Asset(uri: MaybeStr, mimeType: MaybeStr, fileName: MaybeStr)

  /** The form's values; `dob` is a `Date`, kept as its time value. */
  datatype Student = Student(
    name: string, registerNo: string, room: string, year: string, studentClass: string,
    gender: string, dob: int, address: string, email: string, phone: string,
    profilePicture: Option<Asset>)

  /** The initial `student` state, `dob` being the moment the form opened. */
  function Initial(now: int): Student
  {
    Student("", "", "", "", "", "Male", now, "", "", "", None)
  }

  /** What `handleChange` may be given: text, a picked date, or an asset. */
  datatype Input = Text(text: string) | Moment(ms: int) | Photo(asset: Option<Asset>)

  predicate IsTextField(f: Field)
  {
    f != Dob && f != ProfilePicture
  }

  /** The input shape a field holds. */
  predicate Fits(f: Field, v: Input)
  {
    if f == Dob then v.Moment? else if f == ProfilePicture then v.Photo? else v.Text?
  }

  function Get(s: Student, f: Field): (v: Input)
    ensures Fits(f, v)
  {
    match f
    case Name => Text(s.name)
    case RegisterNo => Text(s.registerNo)
    case Room => Text(s.room)
    case Year => Text(s.year)
    case StudentClass => Text(s.studentClass)
    case Gender => Text(s.gender)
    case Dob => Moment(s.dob)
    case Address => Text(s.address)
    case Email => Text(s.email)
    case Phone => Text(s.phone)
    case ProfilePicture => Photo(s.profilePicture)
  }

  /** `{ ...student, [field]: value }` */
  function Set(s: Student, f: Field, v: Input): Student
    requires Fits(f, v)
  {
    match f
    case Name => s.(name := v.text)
    case RegisterNo => s.(registerNo := v.text)
    case Room => s.(room := v.text)
    case Year => s.(year := v.text)
    case StudentClass => s.(studentClass := v.text)
    case Gender => s.(gender := v.text)
    case Dob => s.(dob := v.ms)
    case Address => s.(address := v.text)
    case Email => s.(email := v.text)
    case Phone => s.(phone := v.text)
    case ProfilePicture => s.(profilePicture := v.asset)
  }

  /** The spread update sets the named field and leaves every other field as it was. */
  lemma SetOnlyThatField(s: Student, f: Field, v: Input)
    requires Fits(f, v)
    ensures Get(Set(s, f, v), f) == v
    ensures forall g :: g != f ==> Get(Set(s, f, v), g) == Get(s, g)
  {
  }

  const NameRequired := "Full name is required"
  const RegisterNoRequired := "Register number is required"
  const RoomRequired := "Room number is required"
  const YearRequired := "Year is required"
  const ClassRequired := "Class is required"
  const RegisterNoDigits := "Register number must contain only digits"
  const PhoneDigits := "Phone number must be exactly 10 digits"
  const EmailFormat := "Please enter a valid email address"
  const RoomDigits := "Room number must contain only digits"
  const YearDigits := "Year must be a 4-digit number"

  /**
   * The message `validateForm` leaves for one field, stated field by field: a
   * failed format check on a non-empty value wins over the required message,
   * because it is written later.
   */
  function ExpectedError(s: Student, f: Field): Option<string>
  {
    match f
    case Name => if IsBlank(s.name) then Some(NameRequired) else None
    case RegisterNo =>
      if |s.registerNo| > 0 && !MatchesDigits(s.registerNo) then Some(RegisterNoDigits)
      else if IsBlank(s.registerNo) then Some(RegisterNoRequired) else None
    case Room =>
      if |s.room| > 0 && !MatchesDigits(s.room) then Some(RoomDigits)
      else if IsBlank(s.room) then Some(RoomRequired) else None
    case Year =>
      if |s.year| > 0 && !MatchesDigitsN(s.year, 4) then Some(YearDigits)
      else if IsBlank(s.year) then Some(YearRequired) else None
    case StudentClass => if IsBlank(s.studentClass) then Some(ClassRequired) else None
    case Phone => if |s.phone| > 0 && !MatchesDigitsN(s.phone, 10) then Some(PhoneDigits) else None
    case Email => if |s.email| > 0 && !MatchesEmail(s.email) then Some(EmailFormat) else None
    case _ => None
  }

  /** A required field whose trimmed value is empty. */
  predicate BlankRequired(s: Student, f: Field)
  {
    match f
    case Name => IsBlank(s.name)
    case RegisterNo => IsBlank(s.registerNo)
    case Room => IsBlank(s.room)
    case Year => IsBlank(s.year)
    case StudentClass => IsBlank(s.studentClass)
    case _ => false
  }

  function RequiredMessage(f: Field): string
  {
    match f
    case Name => NameRequired
    case RegisterNo => RegisterNoRequired
    case Room => RoomRequired
    case Year => YearRequired
    case _ => ClassRequired
  }

  /** One `if (!field.trim()) newErrors.field = message` of the first block. */
  function Require(errors: map<Field, string>, s: Student, f: Field): map<Field, string>
  {
    if BlankRequired(s, f) then errors[f := RequiredMessage(f)] else errors
  }

  /** The first block's checks in the source's order, starting from no errors. */
  function RequiredOverlay(s: Student): map<Field, string>
  {
    Require(Require(Require(Require(Require(map[], s, Name), s, RegisterNo), s, Room), s, Year), s, StudentClass)
  }

  /** The first block of `validateForm`: a blank required field gets its required message. */
  method RequiredErrors(s: Student) returns (newErrors: map<Field, string>)
    ensures newErrors == RequiredOverlay(s)
  {
    newErrors := map[];
    if BlankRequired(s, Name) { newErrors := newErrors[Name := NameRequired]; }
    if BlankRequired(s, RegisterNo) { newErrors := newErrors[RegisterNo := RegisterNoRequired]; }
    if BlankRequired(s, Room) { newErrors := newErrors[Room := RoomRequired]; }
    if BlankRequired(s, Year) { newErrors := newErrors[Year := YearRequired]; }
    if BlankRequired(s, StudentClass) { newErrors := newErrors[StudentClass := ClassRequired]; }
  }

  /** After the first block exactly the blank required fields have an error, each its own required message. */
  lemma RequiredOverlayMeaning(s: Student)
    ensures forall f :: f in RequiredOverlay(s) <==> BlankRequired(s, f)
    ensures forall f :: f in RequiredOverlay(s) ==> RequiredOverlay(s)[f] == RequiredMessage(f)
  {
    forall f
      ensures f in RequiredOverlay(s) <==> BlankRequired(s, f)
      ensures f in RequiredOverlay(s) ==> RequiredOverlay(s)[f] == RequiredMessage(f)
    {
      match f
      case Name =>
      case RegisterNo =>
      case Room =>
      case Year =>
      case StudentClass =>
      case _ =>
    }
  }

  /** A non-empty value that fails its pattern; empty phone and email are accepted. */
  predicate FormatFails(s: Student, f: Field)
  {
    match f
    case RegisterNo => |s.registerNo| > 0 && !MatchesDigits(s.registerNo)
    case Phone => |s.phone| > 0 && !MatchesDigitsN(s.phone, 10)
    case Email => |s.email| > 0 && !MatchesEmail(s.email)
    case Room => |s.room| > 0 && !MatchesDigits(s.room)
    case Year => |s.year| > 0 && !MatchesDigitsN(s.year, 4)
    case _ => false
  }

  function FormatMessage(f: Field): string
  {
    match f
    case RegisterNo => RegisterNoDigits
    case Phone => PhoneDigits
    case Email => EmailFormat
    case Room => RoomDigits
    case _ => YearDigits
  }

  /** A failed check writes its message over what the field had; a passed one leaves the errors alone. */
  function Overwrite(errors: map<Field, string>, s: Student, f: Field): map<Field, string>
  {
    if FormatFails(s, f) then errors[f := FormatMessage(f)] else errors
  }

  /** The second block's checks in the source's order. */
  function FormatOverlay(s: Student, required: map<Field, string>): map<Field, string>
  {
    Overwrite(Overwrite(Overwrite(Overwrite(Overwrite(required, s, RegisterNo), s, Phone), s, Email), s, Room), s, Year)
  }

  /** The second block: a failed format check writes its message, replacing whatever was there. */
  method FormatErrors(s: Student, required: map<Field, string>) returns (newErrors: map<Field, string>)
    ensures newErrors == FormatOverlay(s, required)
  {
    newErrors := required;
    if FormatFails(s, RegisterNo) { newErrors := newErrors[RegisterNo := RegisterNoDigits]; }
    if FormatFails(s, Phone) { newErrors := newErrors[Phone := PhoneDigits]; }
    if FormatFails(s, Email) { newErrors := newErrors[Email := EmailFormat]; }
    if FormatFails(s, Room) { newErrors := newErrors[Room := RoomDigits]; }
    if FormatFails(s, Year) { newErrors := newErrors[Year := YearDigits]; }
  }

  /** After the second block a field has an error exactly when it had a required error or fails its format. */
  lemma FormatOverlayKeys(s: Student, required: map<Field, string>)
    ensures forall f :: f in FormatOverlay(s, required) <==> f in required || FormatFails(s, f)
  {
    forall f ensures f in FormatOverlay(s, required) <==> f in required || FormatFails(s, f) {
      match f
      case RegisterNo =>
      case Phone =>
      case Email =>
      case Room =>
      case Year =>
      case _ =>
    }
  }

  /** A failed format check's message wins over the required message. */
  lemma FormatOverlayValues(s: Student, required: map<Field, string>)
    ensures forall f :: f in FormatOverlay(s, required) ==>
      FormatOverlay(s, required)[f] == if FormatFails(s, f) then FormatMessage(f) else required[f]
  {
    FormatOverlayKeys(s, required);
    forall f | f in FormatOverlay(s, required)
      ensures FormatOverlay(s, required)[f] == if FormatFails(s, f) then FormatMessage(f) else required[f]
    {
      match f
      case RegisterNo =>
      case Phone =>
      case Email =>
      case Room =>
      case Year =>
      case _ =>
    }
  }

  /** `newErrors` after all checks of `validateForm`, run in the source's order. */
  method NewErrors(s: Student) returns (newErrors: map<Field, string>)
    ensures forall f :: f in newErrors <==> ExpectedError(s, f).Some?
    ensures forall f :: f in newErrors ==> newErrors[f] == ExpectedError(s, f).value
  {
    var required := RequiredErrors(s);
    newErrors := FormatErrors(s, required);
    ValidationLayers(s);
  }

  /** Per field, the message is the format message when the format fails, else the required one when blank. */
  lemma ExpectedErrorLayers(s: Student, f: Field)
    ensures ExpectedError(s, f) ==
      if FormatFails(s, f) then Some(FormatMessage(f))
      else if BlankRequired(s, f) then Some(RequiredMessage(f))
      else None
  {
    match f
    case Name =>
    case RegisterNo =>
    case Room =>
    case Year =>
    case StudentClass =>
    case Phone =>
    case Email =>
    case _ =>
  }

  /** The two blocks together leave exactly the expected message on each field. */
  lemma ValidationLayers(s: Student)
    ensures forall f :: f in FormatOverlay(s, RequiredOverlay(s)) <==> ExpectedError(s, f).Some?
    ensures forall f :: f in FormatOverlay(s, RequiredOverlay(s)) ==>
      FormatOverlay(s, RequiredOverlay(s))[f] == ExpectedError(s, f).value
  {
    var required := RequiredOverlay(s);
    RequiredOverlayMeaning(s);
    FormatOverlayKeys(s, required);
    FormatOverlayValues(s, required);
    forall f
      ensures f in FormatOverlay(s, required) <==> ExpectedError(s, f).Some?
      ensures f in FormatOverlay(s, required) ==> FormatOverlay(s, required)[f] == ExpectedError(s, f).value
    {
      ExpectedErrorLayers(s, f);
    }
  }

  predicate Valid(s: Student)
  {
    forall f :: ExpectedError(s, f).None?
  }

  /**
   * The form passes exactly when name and class are not blank, register and
   * room numbers are digits, the year is four digits, and phone and email are
   * empty or well formed.
   */
  lemma ValidIff(s: Student)
    ensures Valid(s) <==> ValidFields(s)
  {
    if Valid(s) {
      ValidOnlyIf(s);
    }
    if ValidFields(s) {
      ValidIf(s);
    }
  }

  predicate ValidFields(s: Student)
  {
    !IsBlank(s.name) && MatchesDigits(s.registerNo) && MatchesDigits(s.room) && MatchesDigitsN(s.year, 4)
    && !IsBlank(s.studentClass) && (s.phone == "" || MatchesDigitsN(s.phone, 10))
    && (s.email == "" || MatchesEmail(s.email))
  }

  lemma ValidOnlyIf(s: Student)
    requires Valid(s)
    ensures ValidFields(s)
  {
    assert ExpectedError(s, Name).None?;
    assert ExpectedError(s, RegisterNo).None?;
    assert ExpectedError(s, Room).None?;
    assert ExpectedError(s, Year).None?;
    assert ExpectedError(s, StudentClass).None?;
    assert ExpectedError(s, Phone).None?;
    assert ExpectedError(s, Email).None?;
  }

  lemma ValidIf(s: Student)
    requires ValidFields(s)
    ensures Valid(s)
  {
    DigitsAreNotBlank(s.registerNo);
    DigitsAreNotBlank(s.room);
    DigitsAreNotBlank(s.year);
    forall f ensures ExpectedError(s, f).None? {
      match f
      case Name =>
      case RegisterNo =>
      case Room =>
      case Year =>
      case StudentClass =>
      case Phone =>
      case Email =>
      case _ =>
    }
  }

  /** A number field of spaces only is not reported as missing but as malformed: the later write wins. */
  lemma SpacesGetFormatMessage(s: Student)
    ensures s.registerNo != "" && AllSpace(s.registerNo) ==> ExpectedError(s, RegisterNo) == Some(RegisterNoDigits)
    ensures s.room != "" && AllSpace(s.room) ==> ExpectedError(s, Room) == Some(RoomDigits)
    ensures s.year != "" && AllSpace(s.year) ==> ExpectedError(s, Year) == Some(YearDigits)
    ensures s.phone != "" && AllSpace(s.phone) ==> ExpectedError(s, Phone) == Some(PhoneDigits)
  {
    if s.registerNo != "" && AllSpace(s.registerNo) {
      assert IsSpace(s.registerNo[0]);
    }
    if s.room != "" && AllSpace(s.room) {
      assert IsSpace(s.room[0]);
    }
    if s.year != "" && AllSpace(s.year) {
      assert IsSpace(s.year[0]);
    }
    if s.phone != "" && AllSpace(s.phone) {
      assert IsSpace(s.phone[0]);
    }
  }

  /** On the untouched form exactly the five required fields are reported, each as missing. */
  lemma InitialErrors(now: int)
    ensures forall f :: ExpectedError(Initial(now), f).Some? <==> f in {Name, RegisterNo, Room, Year, StudentClass}
    ensures ExpectedError(Initial(now), Name) == Some(NameRequired)
    ensures ExpectedError(Initial(now), RegisterNo) == Some(RegisterNoRequired)
    ensures ExpectedError(Initial(now), Year) == Some(YearRequired)
  {
    assert IsBlank("");
  }

  /** One multipart entry: a text value, or the picture as `{ uri, type, name }`. */
  datatype Part = TextPart(key: string, value: string) | FilePart(key: string, uri: MaybeStr, mimeType: string, fileName: string)

  /** The entries one key of `student` contributes to the `FormData`. */
  function PartsFor(cal: Calendar, s: Student, now: int, f: Field): seq<Part>
  {
    match Get(s, f)
    case Photo(asset) =>
      if asset.Some? then
        [FilePart("profile_picture", asset.value.uri, OrStr(asset.value.mimeType, "image/jpeg"),
          OrStr(asset.value.fileName, "photo_" + IntToString(now) + ".jpg"))]
      else []
    case Moment(ms) => [TextPart(KeyName(f), UtcDay(cal, ms))]
    case Text(t) => if t != "" then [TextPart(KeyName(f), t)] else []
  }

  function PartsOf(cal: Calendar, s: Student, now: int): Field -> seq<Part>
  {
    (f: Field) => PartsFor(cal, s, now, f)
  }

  /** One iteration of the `forEach` over the keys: the picture as a file, the birth date as a day, other non-empty values as text. */
  method AppendKey(cal: Calendar, s: Student, now: int, parts: seq<Part>, key: Field) returns (next: seq<Part>)
    ensures next == parts + PartsFor(cal, s, now, key)
  {
    next := parts;
    if key == ProfilePicture && s.profilePicture.Some? {
      var asset := s.profilePicture.value;
      next := next + [FilePart("profile_picture", asset.uri, OrStr(asset.mimeType, "image/jpeg"),
        OrStr(asset.fileName, "photo_" + IntToString(now) + ".jpg"))];
    } else if key == Dob {
      next := next + [TextPart(KeyName(key), UtcDay(cal, s.dob))];
    } else if key != ProfilePicture && Get(s, key).text != "" {
      next := next + [TextPart(KeyName(key), Get(s, key).text)];
    }
  }

  /** The `FormData` built by `handleSubmit`, `now` standing for `Date.now()`. */
  method BuildPayload(cal: Calendar, s: Student, now: int) returns (parts: seq<Part>)
    ensures parts == Flatten(Keys, PartsOf(cal, s, now))
  {
    parts := [];
    var i := 0;
    while i < |Keys|
      invariant 0 <= i <= |Keys|
      invariant parts == Flatten(Keys[..i], PartsOf(cal, s, now))
    {
      var key := Keys[i];
      parts := AppendKey(cal, s, now, parts, key);
      FlattenSnoc(Keys[..i], key, PartsOf(cal, s, now));
      assert Keys[..i + 1] == Keys[..i] + [key];
      i := i + 1;
    }
    assert Keys[..i] == Keys;
  }

  function HasKey(k: string): Part -> bool
  {
    (p: Part) => p.key == k
  }

  /** Different fields have different key names. */
  lemma KeyNameInjective(f: Field, g: Field)
    requires KeyName(f) == KeyName(g)
    ensures f == g
  {
    assert |KeyName(f)| == |KeyName(g)| && KeyName(f)[0] == KeyName(g)[0];
  }

  /** Every entry a key contributes carries that key's name. */
  lemma PartsCarryKey(cal: Calendar, s: Student, now: int, f: Field)
    ensures forall k :: 0 <= k < |PartsFor(cal, s, now, f)| ==> PartsFor(cal, s, now, f)[k].key == KeyName(f)
  {
  }

  predicate Distinct(keys: seq<Field>)
  {
    forall i, j :: 0 <= i < j < |keys| ==> keys[i] != keys[j]
  }

  lemma DistinctRest(keys: seq<Field>)
    requires Distinct(keys) && keys != []
    ensures Distinct(keys[1..]) && keys[0] !in keys[1..]
  {
    var rest := keys[1..];
    forall i, j | 0 <= i < j < |rest| ensures rest[i] != rest[j] {
      assert rest[i] == keys[i + 1] && rest[j] == keys[j + 1];
    }
    forall j | 0 <= j < |rest| ensures rest[j] != keys[0] {
      assert keys[0] != keys[j + 1];
    }
  }

  /** Picking one key's parts out of another field's parts keeps all of them or none. */
  lemma PickOne(cal: Calendar, s: Student, now: int, g: Field, f: Field)
    ensures Filter(PartsFor(cal, s, now, g), HasKey(KeyName(f))) == if g == f then PartsFor(cal, s, now, g) else []
  {
    PartsCarryKey(cal, s, now, g);
    if g == f {
      FilterKeepsAll(PartsFor(cal, s, now, g), HasKey(KeyName(f)));
    } else {
      if KeyName(g) == KeyName(f) {
        KeyNameInjective(g, f);
      }
      FilterDropsAll(PartsFor(cal, s, now, g), HasKey(KeyName(f)));
    }
  }

  lemma {:induction false} PickKey(cal: Calendar, s: Student, now: int, keys: seq<Field>, f: Field)
    requires Distinct(keys)
    ensures Filter(Flatten(keys, PartsOf(cal, s, now)), HasKey(KeyName(f))) == if f in keys then PartsFor(cal, s, now, f) else []
    decreases |keys|
  {
    if keys != [] {
      var g, rest := keys[0], keys[1..];
      DistinctRest(keys);
      PickKey(cal, s, now, rest, f);
      FilterAppend(PartsFor(cal, s, now, g), Flatten(rest, PartsOf(cal, s, now)), HasKey(KeyName(f)));
      PickOne(cal, s, now, g, f);
      assert f in keys <==> f == g || f in rest;
    }
  }

  function Position(f: Field): nat
  {
    match f
    case Name => 0
    case RegisterNo => 1
    case Room => 2
    case Year => 3
    case StudentClass => 4
    case Gender => 5
    case Dob => 6
    case Address => 7
    case Email => 8
    case Phone => 9
    case ProfilePicture => 10
  }

  /** `Object.keys(student)` lists every field once, each at its own position. */
  lemma KeysListEveryFieldOnce(f: Field)
    ensures Distinct(Keys) && f in Keys
  {
    assert forall i :: 0 <= i < |Keys| ==> Position(Keys[i]) == i;
    assert Keys[Position(f)] == f;
  }

  function Picked(cal: Calendar, s: Student, now: int, f: Field): seq<Part>
  {
    Filter(Flatten(Keys, PartsOf(cal, s, now)), HasKey(KeyName(f)))
  }

  /** The entries under one key are exactly what that key contributes. */
  lemma PickedIsPartsFor(cal: Calendar, s: Student, now: int, f: Field)
    ensures Picked(cal, s, now, f) == PartsFor(cal, s, now, f)
  {
    KeysListEveryFieldOnce(f);
    PickKey(cal, s, now, Keys, f);
  }

  /** The picture is sent only when one was picked, and then once. */
  lemma PayloadPicture(cal: Calendar, s: Student, now: int)
    ensures |Picked(cal, s, now, ProfilePicture)| == if s.profilePicture.Some? then 1 else 0
  {
    PickedIsPartsFor(cal, s, now, ProfilePicture);
  }

  /** A picked picture is sent with its own uri, and with a type and a file name always filled in. */
  lemma PayloadPictureFields(cal: Calendar, s: Student, now: int)
    requires s.profilePicture.Some?
    ensures |Picked(cal, s, now, ProfilePicture)| == 1
    ensures var p := Picked(cal, s, now, ProfilePicture)[0];
      p.FilePart? && p.uri == s.profilePicture.value.uri && |p.mimeType| > 0 && |p.fileName| > 0
    ensures var p := Picked(cal, s, now, ProfilePicture)[0];
      p.FilePart? && p.mimeType == OrStr(s.profilePicture.value.mimeType, "image/jpeg")
      && p.fileName == OrStr(s.profilePicture.value.fileName, "photo_" + IntToString(now) + ".jpg")
  {
    PickedIsPartsFor(cal, s, now, ProfilePicture);
    var asset := s.profilePicture.value;
    FallbackNameNotEmpty(asset.fileName, now);
    assert PartsFor(cal, s, now, ProfilePicture) ==
      [FilePart("profile_picture", asset.uri, OrStr(asset.mimeType, "image/jpeg"),
        OrStr(asset.fileName, "photo_" + IntToString(now) + ".jpg"))];
  }

  lemma FallbackNameNotEmpty(fileName: MaybeStr, now: int)
    ensures |OrStr(fileName, "photo_" + IntToString(now) + ".jpg")| > 0
  {
    if !TruthyStr(fileName) {
      assert |"photo_" + IntToString(now) + ".jpg"| >= 6;
    }
  }

  /** The birth date is always sent, once, as its UTC calendar date. */
  lemma PayloadDob(cal: Calendar, s: Student, now: int)
    ensures Picked(cal, s, now, Dob) == [TextPart("dob", UtcDay(cal, s.dob))]
  {
    PickedIsPartsFor(cal, s, now, Dob);
  }

  /** A text field is sent, once and verbatim, exactly when it is not empty. */
  lemma PayloadText(cal: Calendar, s: Student, now: int, f: Field)
    requires IsTextField(f)
    ensures Picked(cal, s, now, f) == if Get(s, f).text == "" then [] else [TextPart(KeyName(f), Get(s, f).text)]
  {
    PickedIsPartsFor(cal, s, now, f);
  }

  const DefaultFailure := "Failed to add student"
  const DuplicateMessage := "A student with this register number already exists"
  const NetworkMessage := "Network error. Please check your connection"
  const TimeoutMessage := "Request timeout. Please try again"

  /** The `catch` of `handleSubmit`: the message of the thrown error, rewritten for three known causes. */
  method SubmitErrorMessage(message: MaybeStr) returns (errorMessage: string)
    ensures var m := OrStr(message, DefaultFailure);
      && (Contains(Lower(m), "duplicate") ==> errorMessage == DuplicateMessage)
      && (!Contains(Lower(m), "duplicate") && Contains(Lower(m), "network") ==> errorMessage == NetworkMessage)
      && (!Contains(Lower(m), "duplicate") && !Contains(Lower(m), "network") && Contains(Lower(m), "timeout")
          ==> errorMessage == TimeoutMessage)
      && (!Contains(Lower(m), "duplicate") && !Contains(Lower(m), "network") && !Contains(Lower(m), "timeout")
          ==> errorMessage == m)
    ensures !TruthyStr(message) ==> errorMessage == DefaultFailure
  {
    DefaultIsNotDuplicate();
    DefaultIsNotNetwork();
    DefaultIsNotTimeout();
    errorMessage := DefaultFailure;
    if TruthyStr(message) {
      errorMessage := message.value;
    }
    if Contains(Lower(errorMessage), "duplicate") {
      errorMessage := DuplicateMessage;
    } else if Contains(Lower(errorMessage), "network") {
      errorMessage := NetworkMessage;
    } else if Contains(Lower(errorMessage), "timeout") {
      errorMessage := TimeoutMessage;
    }
  }

  /** A text that contains `sub` contains each of its characters. */
  lemma ContainsEveryChar(s: string, sub: string, c: char)
    requires Contains(s, sub) && c in sub
    ensures c in s
  {
    var i := ContainsWitness(s, sub);
    var k :| 0 <= k < |sub| && sub[k] == c;
    assert s[i + k] == s[i..i + |sub|][k];
  }

  /** Lower-casing cannot bring in a lower-case letter that is absent in both cases. */
  lemma LowerLacks(s: string, c: char, upper: char)
    requires 'a' <= c <= 'z' && upper == (c as int - 32) as char
    requires c !in s && upper !in s
    ensures c !in Lower(s)
  {
  }

  /** A text lacking one character of `sub` does not contain `sub`. */
  lemma LacksSub(s: string, sub: string, c: char)
    requires c in sub && c !in s
    ensures !Contains(s, sub)
  {
    if Contains(s, sub) {
      ContainsEveryChar(s, sub, c);
    }
  }

  /** A thrown error without a message shows the default text: none of the three causes occurs in it. */
  lemma DefaultIsNotDuplicate()
    ensures !Contains(Lower(DefaultFailure), "duplicate")
  {
    LowerLacks(DefaultFailure, 'p', 'P');
    LacksSub(Lower(DefaultFailure), "duplicate", 'p');
  }

  lemma DefaultIsNotNetwork()
    ensures !Contains(Lower(DefaultFailure), "network")
  {
    LowerLacks(DefaultFailure, 'w', 'W');
    LacksSub(Lower(DefaultFailure), "network", 'w');
  }

  lemma DefaultIsNotTimeout()
    ensures !Contains(Lower(DefaultFailure), "timeout")
  {
    LowerLacks(DefaultFailure, 'm', 'M');
    LacksSub(Lower(DefaultFailure), "timeout", 'm');
  }

  /** The screen's form state; `globalError` stands for the shared `error` that `clearError()` resets. */
  class Form {
    var student: Student
    var touched: set<Field>
    var errors: map<Field, Option<string>>
    var globalError: bool

    constructor(now: int, contextError: bool)
      ensures student == Initial(now) && touched == {} && errors == map[] && globalError == contextError
    {
      student := Initial(now);
      touched := {};
      errors := map[];
      globalError := contextError;
    }

    /** `handleChange`: set the field, mark it touched, clear only its own error, clear the shared error. */
    method HandleChange(field: Field, value: Input)
      requires Fits(field, value)
      modifies this
      ensures student == Set(old(student), field, value)
      ensures touched == old(touched) + {field}
      ensures errors == if field in old(errors) && TruthyStr(old(errors)[field]) then old(errors)[field := None] else old(errors)
      ensures !globalError
    {
      student := Set(student, field, value);
      touched := touched + {field};
      if field in errors && TruthyStr(errors[field]) {
        errors := errors[field := None];
      }
      if globalError {
        globalError := false;
      }
    }

    /** `validateForm`: store the new errors and answer whether there are none. */
    method ValidateForm() returns (valid: bool)
      modifies this
      ensures student == old(student) && touched == old(touched) && globalError == old(globalError)
      ensures forall f :: f in errors <==> ExpectedError(student, f).Some?
      ensures forall f :: f in errors ==> errors[f] == ExpectedError(student, f)
      ensures valid <==> Valid(student)
    {
      var newErrors := NewErrors(student);
      errors := map f | f in newErrors :: Some(newErrors[f]);
      valid := |newErrors| == 0;
      if !valid {
        var f :| f in newErrors;
        assert ExpectedError(student, f).Some?;
      }
      if !Valid(student) {
        var f :| ExpectedError(student, f).Some?;
        assert f in newErrors;
      }
    }

    /** `handleSubmit` up to the request: touch every field, validate, and build the payload only when valid. */
    method HandleSubmit(cal: Calendar, now: int) returns (payload: Option<seq<Part>>)
      modifies this
      ensures touched == set f | f in Keys
      ensures student == old(student) && globalError == old(globalError)
      ensures forall f :: f in errors <==> ExpectedError(student, f).Some?
      ensures forall f :: f in errors ==> errors[f] == ExpectedError(student, f)
      ensures payload.Some? <==> Valid(student)
      ensures payload.Some? ==> payload.value == Flatten(Keys, PartsOf(cal, student, now))
    {
      touched := set f | f in Keys;
      var valid := ValidateForm();
      if !valid {
        return None;
      }
      var parts := BuildPayload(cal, student, now);
      payload := Some(parts);
    }
  }
}
