/**
 * The details step of enrollment (`UserForm`): five text fields, their
 * validation, and the submission that sends them with the image to the
 * backend and hands the enrolled record to the page. The backend's reply and
 * the current time are inputs.
 */
module UserForm {
  import opened Wrappers
  import opened Text
  import opened Api

  datatype Field = CccdNumber | FullName | Gender | BirthDate | PermanentAddress

  datatype FormData = FormData(
    cccdNumber: string,
    fullName: string,
    gender: string,
    birthDate: string,
    permanentAddress: string)
  {
    function Get(f: Field): string {
      match f
      case CccdNumber => cccdNumber
      case FullName => fullName
      case Gender => gender
      case BirthDate => birthDate
      case PermanentAddress => permanentAddress
    }

    /** `{ ...prev, [field]: value }`: `f` holds `v`, every other field is kept. */
    function With(f: Field, v: string): (d: FormData)
      ensures d.Get(f) == v
      ensures forall g :: g != f ==> d.Get(g) == Get(g)
    {
      match f
      case CccdNumber => this.(cccdNumber := v)
      case FullName => this.(fullName := v)
      case Gender => this.(gender := v)
      case BirthDate => this.(birthDate := v)
      case PermanentAddress => this.(permanentAddress := v)
    }
  }

  const EmptyForm: FormData := FormData("", "", "", "", "")

  const CccdRequired := "CCCD number is required"
  const CccdFormat := "CCCD number must be 12 digits"
  const FullNameRequired := "Full name is required"
  const GenderRequired := "Gender is required"
  const BirthDateRequired := "Birth date is required"
  const AddressRequired := "Permanent address is required"

  /** `/^\d{12}$/`: exactly twelve ASCII digits, nothing before or after. */
  predicate IsCccd(s: string) {
    |s| == 12 && IsDigits(s)
  }

  /**
   * The CCCD rule: "required" when the number is blank after trimming;
   * otherwise it must be exactly twelve digits as typed, without trimming.
   * At most one of the two errors is reported.
   */
  function CccdError(v: string): (e: Option<string>)
    ensures e.Some? <==> !IsCccd(v)
    ensures e.Some? ==> e.value == if IsBlank(v) then CccdRequired else CccdFormat
  {
    assert IsBlank(v) ==> !IsCccd(v) by {
      if IsBlank(v) && |v| == 12 {
        assert IsWhitespace(v[0]);
      }
    }
    if IsBlank(v) then Some(CccdRequired)
    else if !IsCccd(v) then Some(CccdFormat)
    else None
  }

  /** A required field: blank after trimming when `trimmed`, otherwise just empty, is an error. */
  function RequiredError(v: string, trimmed: bool, message: string): (e: Option<string>)
    ensures e.Some? <==> if trimmed then IsBlank(v) else v == ""
    ensures e.Some? ==> e.value == message
  {
    if (if trimmed then IsBlank(v) else v == "") then Some(message) else None
  }

  /** The error, if any, `validateForm` records for one field. */
  function FieldError(d: FormData, f: Field): Option<string> {
    match f
    case CccdNumber => CccdError(d.cccdNumber)
    case FullName => RequiredError(d.fullName, true, FullNameRequired)
    case Gender => RequiredError(d.gender, false, GenderRequired)
    case BirthDate => RequiredError(d.birthDate, false, BirthDateRequired)
    case PermanentAddress => RequiredError(d.permanentAddress, true, AddressRequired)
  }

  /** Adds the error `e`, if there is one, for field `f`. */
  function Record(errors: map<Field, string>, f: Field, e: Option<string>): map<Field, string> {
    if e.Some? then errors[f := e.value] else errors
  }

  /**
   * The error map built from the five per-field outcomes: a field is a key
   * exactly when its outcome is an error, and maps to that error's message.
   */
  function CollectErrors(cccd: Option<string>, fullName: Option<string>, gender: Option<string>,
                         birthDate: Option<string>, address: Option<string>): (errors: map<Field, string>)
    ensures CccdNumber in errors <==> cccd.Some?
    ensures CccdNumber in errors ==> errors[CccdNumber] == cccd.value
    ensures FullName in errors <==> fullName.Some?
    ensures FullName in errors ==> errors[FullName] == fullName.value
    ensures Gender in errors <==> gender.Some?
    ensures Gender in errors ==> errors[Gender] == gender.value
    ensures BirthDate in errors <==> birthDate.Some?
    ensures BirthDate in errors ==> errors[BirthDate] == birthDate.value
    ensures PermanentAddress in errors <==> address.Some?
    ensures PermanentAddress in errors ==> errors[PermanentAddress] == address.value
  {
    var e1 := Record(map[], CccdNumber, cccd);
    var e2 := Record(e1, FullName, fullName);
    var e3 := Record(e2, Gender, gender);
    var e4 := Record(e3, BirthDate, birthDate);
    Record(e4, PermanentAddress, address)
  }

  /** `validateForm`'s error map: each field's error, in the order the rules are checked. */
  function Validate(d: FormData): (errors: map<Field, string>)
    ensures forall f :: f in errors <==> FieldError(d, f).Some?
    ensures forall f :: f in errors ==> errors[f] == FieldError(d, f).value
  {
    CollectErrors(
      FieldError(d, CccdNumber), FieldError(d, FullName), FieldError(d, Gender),
      FieldError(d, BirthDate), FieldError(d, PermanentAddress))
  }

  /** `Object.keys(newErrors).length === 0`. */
  predicate FormValid(d: FormData) {
    Validate(d) == map[]
  }

  /**
   * The rules `validateForm` applies, field by field: the CCCD number is
   * "required" when blank after trimming and otherwise must be exactly twelve
   * digits as typed (no trimming); full name and address are required when
   * blank after trimming; gender and birth date only when empty.
   */
  lemma ValidateRules(d: FormData)
    ensures CccdNumber in Validate(d) <==> !IsCccd(d.cccdNumber)
    ensures CccdNumber in Validate(d) ==>
              Validate(d)[CccdNumber] == if IsBlank(d.cccdNumber) then CccdRequired else CccdFormat
    ensures FullName in Validate(d) <==> IsBlank(d.fullName)
    ensures FullName in Validate(d) ==> Validate(d)[FullName] == FullNameRequired
    ensures Gender in Validate(d) <==> d.gender == ""
    ensures Gender in Validate(d) ==> Validate(d)[Gender] == GenderRequired
    ensures BirthDate in Validate(d) <==> d.birthDate == ""
    ensures BirthDate in Validate(d) ==> Validate(d)[BirthDate] == BirthDateRequired
    ensures PermanentAddress in Validate(d) <==> IsBlank(d.permanentAddress)
    ensures PermanentAddress in Validate(d) ==> Validate(d)[PermanentAddress] == AddressRequired
  {
  }

  /** The form validates exactly when every rule is met. */
  lemma FormValidIff(d: FormData)
    ensures FormValid(d) <==>
      && IsCccd(d.cccdNumber)
      && !IsBlank(d.fullName)
      && d.gender != ""
      && d.birthDate != ""
      && !IsBlank(d.permanentAddress)
  {
  }

  /**
   * The number is checked as typed: a valid number followed by a space is
   * reported as not being twelve digits, not accepted after trimming.
   */
  lemma PaddedCccdRejected(d: FormData)
    requires IsCccd(d.cccdNumber)
    ensures var padded := d.(cccdNumber := d.cccdNumber + " ");
            CccdNumber in Validate(padded) && Validate(padded)[CccdNumber] == CccdFormat
  {
    var padded := d.(cccdNumber := d.cccdNumber + " ");
    assert padded.cccdNumber[0] == d.cccdNumber[0];
    ValidateRules(padded);
  }

  /** What the form hands to the page after a successful enrollment. */
  datatype SubmittedData = SubmittedData(
    form: FormData,
    imageData: Option<string>,
    enrollmentDate: string,
    userId: int,
    faceId: string,
    apiResponse: EnrollResponse)

  /** The five form values as `enrollUser` receives them, with the image file. */
  function EnrollmentData(d: FormData, image: File): (e: EnrollUserData)
    ensures e.image == image
    ensures e.cccdNumber == d.Get(CccdNumber) && e.fullName == d.Get(FullName) && e.gender == d.Get(Gender)
    ensures e.birthDate == d.Get(BirthDate) && e.permanentAddress == d.Get(PermanentAddress)
  {
    EnrollUserData(d.cccdNumber, d.fullName, d.gender, d.birthDate, d.permanentAddress, image)
  }

  class UserForm {
    var formData: FormData
    var errors: map<Field, string>
    var isSubmitting: bool
    var enrollmentSuccess: bool

    /** Between handlers no submission is in flight. */
    ghost predicate Valid()
      reads this
    {
      !isSubmitting
    }

    constructor()
      ensures Valid()
      ensures formData == EmptyForm && errors == map[] && !enrollmentSuccess
    {
      formData := EmptyForm;
      errors := map[];
      isSubmitting := false;
      enrollmentSuccess := false;
    }

    /**
     * `handleChange`: `field` takes the new value, and its error, if it had a
     * non-empty one, becomes ""; nothing else changes.
     */
    method HandleChange(field: Field, value: string)
      modifies this
      ensures formData == old(formData).With(field, value)
      ensures errors == if field in old(errors) && old(errors)[field] != "" then old(errors)[field := ""] else old(errors)
      ensures isSubmitting == old(isSubmitting) && enrollmentSuccess == old(enrollmentSuccess)
    {
      formData := formData.With(field, value);
      if field in errors && errors[field] != "" {
        errors := errors[field := ""];
      }
    }

    /**
     * `handleSubmit`: the errors always become those of the current data.
     * The enrollment request is sent only when the form is valid and an image
     * file is present, and carries the form values verbatim with that file.
     * The page receives the record only when the backend reports success; on
     * any failure the form keeps its data. Submission has ended in every case.
     */
    method HandleSubmit(imageData: Option<string>, imageFile: Option<File>, reply: HttpReply<EnrollResponse>, nowIso: string)
      returns (sent: Option<EnrollUserData>, submitted: Option<SubmittedData>)
      requires Valid()
      modifies this
      ensures Valid()
      ensures formData == old(formData)
      ensures errors == Validate(formData)
      ensures sent.Some? <==> FormValid(formData) && imageFile.Some?
      ensures sent.Some? ==> sent.value == EnrollmentData(formData, imageFile.value)
      ensures submitted.Some? <==> sent.Some? && EnrollUser(reply).Success? && EnrollUser(reply).value.success
      ensures submitted.Some? ==>
                var result := EnrollUser(reply).value;
                submitted.value == SubmittedData(formData, imageData, BeforeFirst(nowIso, 'T'), result.userId, result.faceId, result)
      ensures enrollmentSuccess == (old(enrollmentSuccess) || submitted.Some?)
    {
      errors := Validate(formData);
      sent := None;
      submitted := None;
      if errors != map[] {
        return;
      }
      if imageFile.None? {
        return;
      }
      isSubmitting := true;
      var data := EnrollmentData(formData, imageFile.value);
      sent := Some(data);
      var outcome := EnrollUser(reply);
      if outcome.Success? && outcome.value.success {
        enrollmentSuccess := true;
        var result := outcome.value;
        submitted := Some(SubmittedData(formData, imageData, BeforeFirst(nowIso, 'T'), result.userId, result.faceId, result));
      }
      isSubmitting := false;
    }
  }
}
