/** The add-user form: its twelve text inputs, per-field validation with the
    email-shape check, the record it submits and the way typing clears a
    field's error. */
module AddUserForm {
  import opened Wrappers
  import opened Text
  import opened Users

  /** The form's inputs, named as the keys of its state object. */
  datatype Field = Name | Username | Email | Phone | Website | Street | Suite
                 | City | Zipcode | CompanyName | CatchPhrase | Bs

  /** The form's state object: the current text of each input. */
  datatype FormData = FormData(
    name: string, username: string, email: string, phone: string, website: string,
    street: string, suite: string, city: string, zipcode: string,
    companyName: string, catchPhrase: string, bs: string)
  {
    /** `formData[field]`. */
    function Get(field: Field): string {
      match field
      case Name => name
      case Username => username
      case Email => email
      case Phone => phone
      case Website => website
      case Street => street
      case Suite => suite
      case City => city
      case Zipcode => zipcode
      case CompanyName => companyName
      case CatchPhrase => catchPhrase
      case Bs => bs
    }

    /** `{ ...formData, [field]: value }`. */
    function Set(field: Field, value: string): (r: FormData)
      ensures r.Get(field) == value
      ensures forall other :: other != field ==> r.Get(other) == Get(other)
    {
      match field
      case Name => this.(name := value)
      case Username => this.(username := value)
      case Email => this.(email := value)
      case Phone => this.(phone := value)
      case Website => this.(website := value)
      case Street => this.(street := value)
      case Suite => this.(suite := value)
      case City => this.(city := value)
      case Zipcode => this.(zipcode := value)
      case CompanyName => this.(companyName := value)
      case CatchPhrase => this.(catchPhrase := value)
      case Bs => this.(bs := value)
    }
  }

  /** The initial and the reset state: every input holds "". */
  const EmptyForm := FormData("", "", "", "", "", "", "", "", "", "", "", "")

  const NameRequired := "Name is required"
  const EmailRequired := "Email is required"
  const EmailInvalid := "Please enter a valid email address"
  const PhoneRequired := "Phone is required"

  // ---------------------------------------------------------------------
  // The email shape

  /** Every character is one the class `[^\s@]` matches. */
  predicate Plain(s: string) {
    forall i :: 0 <= i < |s| ==> !IsSpace(s[i]) && s[i] != '@'
  }

  /** `s` splits as `[^\s@]+ @ [^\s@]+ \. [^\s@]+` with the '@' at index `at`
      and the '.' at index `dot`. */
  predicate PatternSplit(s: string, at: int, dot: int) {
    && 0 < at && at + 1 < dot && dot + 1 < |s|
    && s[at] == '@' && s[dot] == '.'
    && Plain(s[..at]) && Plain(s[at + 1..dot]) && Plain(s[dot + 1..])
  }

  /** What `/^[^\s@]+@[^\s@]+\.[^\s@]+$/.test(s)` decides. */
  ghost predicate MatchesEmailPattern(s: string) {
    exists at, dot :: PatternSplit(s, at, dot)
  }

  /** The number of '@' characters in `s`. */
  function AtCount(s: string): (n: nat)
    ensures n == 0 <==> '@' !in s
  {
    if s == [] then 0
    else (if s[0] == '@' then 1 else 0) + AtCount(s[1..])
  }

  /** The index of the first '@' in `s`. */
  function IndexOfAt(s: string): (i: nat)
    requires '@' in s
    ensures i < |s| && s[i] == '@' && '@' !in s[..i]
  {
    if s[0] == '@' then 0
    else
      var i := 1 + IndexOfAt(s[1..]);
      assert s[..i] == [s[0]] + s[1..][..i - 1];
      i
  }

  /** `d` holds a '.' that is neither its first nor its last character. */
  predicate InnerDot(d: string) {
    exists k | 0 < k < |d| - 1 :: d[k] == '.'
  }

  /** The email shape, stated directly: exactly one '@', no white space, a
      non-empty part before the '@', and a domain after it holding a '.' that
      is neither the domain's first nor its last character. */
  predicate EmailShape(s: string) {
    && NoSpace(s)
    && AtCount(s) == 1
    && var at := IndexOfAt(s);
       at > 0 && InnerDot(s[at + 1..])
  }

  lemma {:induction false} AtCountAppend(a: string, b: string)
    ensures AtCount(a + b) == AtCount(a) + AtCount(b)
  {
    if a == [] {
      assert a + b == b;
    } else {
      assert (a + b)[0] == a[0];
      assert (a + b)[1..] == a[1..] + b;
      AtCountAppend(a[1..], b);
    }
  }

  /** Text that `[^\s@]*` matches holds no '@'. */
  lemma PlainHasNoAt(t: string)
    requires Plain(t)
    ensures '@' !in t
  {
  }

  /** `s` is `left + "@" + right` with no '@' in `left` or `right`, so it holds
      exactly one '@', at index |left|. */
  lemma {:induction false} SingleAt(s: string, left: string, right: string)
    requires s == left + "@" + right && '@' !in left && '@' !in right
    ensures AtCount(s) == 1 && IndexOfAt(s) == |left|
  {
    AtCountAppend(left + "@", right);
    AtCountAppend(left, "@");
  }

  /** Every string of the stated shape matches the pattern. */
  lemma ShapeMatchesPattern(s: string)
    requires EmailShape(s)
    ensures MatchesEmailPattern(s)
  {
    var at := IndexOfAt(s);
    var d := s[at + 1..];
    var k :| 0 < k < |d| - 1 && d[k] == '.';
    var dot := at + 1 + k;
    assert s == s[..at] + "@" + d;
    AtCountAppend(s[..at] + "@", d);
    AtCountAppend(s[..at], "@");
    assert '@' !in d;
    assert s[at + 1..dot] == d[..k];
    assert s[dot + 1..] == d[k + 1..];
    assert PatternSplit(s, at, dot);
  }

  /** Every string the pattern matches has the stated shape. */
  lemma PatternHasShape(s: string, at: int, dot: int)
    requires PatternSplit(s, at, dot)
    ensures EmailShape(s)
  {
    var left, middle, right := s[..at], s[at + 1..dot], s[dot + 1..];
    var d := s[at + 1..];
    assert d == middle + "." + right;
    assert s == left + "@" + d;
    forall i | 0 <= i < |s| ensures !IsSpace(s[i]) {
      if i < at {
        assert s[i] == left[i];
      } else if at < i < dot {
        assert s[i] == middle[i - at - 1];
      } else if dot < i {
        assert s[i] == right[i - dot - 1];
      }
    }
    PlainHasNoAt(left);
    PlainHasNoAt(middle);
    PlainHasNoAt(right);
    SingleAt(s, left, d);
    assert d[dot - at - 1] == '.';
  }

  /** The direct statement of the email shape is exactly what the pattern
      accepts. */
  lemma EmailShapeMatchesPattern(s: string)
    ensures EmailShape(s) <==> MatchesEmailPattern(s)
  {
    if EmailShape(s) {
      ShapeMatchesPattern(s);
    }
    if MatchesEmailPattern(s) {
      var at, dot :| PatternSplit(s, at, dot);
      PatternHasShape(s, at, dot);
    }
  }

  // ---------------------------------------------------------------------
  // Validation

  /** `!s.trim()`, stated through the contract of Trim: the input is empty
      once trimmed exactly when it is all white space (BlankIsEmptyTrim). */
  predicate Blank(s: string) {
    AllSpace(s)
  }

  lemma BlankIsEmptyTrim(s: string)
    ensures Blank(s) <==> Trim(s) == ""
  {
  }

  /** The errors object `validateForm` builds from `data`: at most one entry
      for each of the name, the email and the phone. */
  function ValidationErrors(data: FormData): map<Field, string> {
    var byName: map<Field, string> := if Blank(data.name) then map[Name := NameRequired] else map[];
    var byEmail :=
      if Blank(data.email) then byName[Email := EmailRequired]
      else if !EmailShape(data.email) then byName[Email := EmailInvalid]
      else byName;
    if Blank(data.phone) then byEmail[Phone := PhoneRequired] else byEmail
  }

  /** Validation in terms of the inputs: at most one entry per required field
      and none for any other, a name or phone entry exactly when that input is
      empty once trimmed, and an email entry that says "required" exactly when
      the trimmed email is empty and "invalid" exactly when it is not but the
      email as typed fails the pattern. */
  lemma ValidationSpec(data: FormData)
    ensures var errors := ValidationErrors(data);
      && errors.Keys <= {Name, Email, Phone}
      && (Name in errors <==> Trim(data.name) == "")
      && (Name in errors ==> errors[Name] == NameRequired)
      && (Phone in errors <==> Trim(data.phone) == "")
      && (Phone in errors ==> errors[Phone] == PhoneRequired)
      && (Email in errors ==> errors[Email] == EmailRequired || errors[Email] == EmailInvalid)
      && ((Email in errors && errors[Email] == EmailRequired) <==> Trim(data.email) == "")
      && ((Email in errors && errors[Email] == EmailInvalid)
            <==> (Trim(data.email) != "" && !MatchesEmailPattern(data.email)))
  {
    ValidationByBlank(data);
    BlankIsEmptyTrim(data.name);
    BlankIsEmptyTrim(data.email);
    BlankIsEmptyTrim(data.phone);
  }

  /** ValidationSpec with "empty once trimmed" read as Blank. */
  lemma ValidationByBlank(data: FormData)
    ensures var errors := ValidationErrors(data);
      && errors.Keys <= {Name, Email, Phone}
      && (Name in errors <==> Blank(data.name))
      && (Name in errors ==> errors[Name] == NameRequired)
      && (Phone in errors <==> Blank(data.phone))
      && (Phone in errors ==> errors[Phone] == PhoneRequired)
      && (Email in errors ==> errors[Email] == EmailRequired || errors[Email] == EmailInvalid)
      && ((Email in errors && errors[Email] == EmailRequired) <==> Blank(data.email))
      && ((Email in errors && errors[Email] == EmailInvalid)
            <==> (!Blank(data.email) && !MatchesEmailPattern(data.email)))
  {
    EmailShapeMatchesPattern(data.email);
  }

  /** The form passes validation exactly when the name and the phone are not
      blank and the email matches the pattern. */
  lemma AcceptedForms(data: FormData)
    ensures ValidationErrors(data) == map[] <==>
      !AllSpace(data.name) && MatchesEmailPattern(data.email) && !AllSpace(data.phone)
  {
    EmailShapeMatchesPattern(data.email);
    var errors := ValidationErrors(data);
    if errors == map[] {
      assert Name !in errors && Email !in errors && Phone !in errors;
    } else {
      var f :| f in errors;
      assert f == Name || f == Email || f == Phone;
    }
  }

  // ---------------------------------------------------------------------
  // The submitted record

  /** The submitted username: the trimmed username when it is not blank, else
      the lower-cased name with every run of white space removed. */
  function DeriveUsername(username: string, name: string): string {
    var given := Trim(username);
    if given != "" then given else RemoveSpace(Lower(name))
  }

  /** A username given in the form is kept, trimmed; a derived one holds no
      white space and no upper-case letter, and is empty only when the name is
      blank. Either way the result is trimmed. */
  lemma DeriveUsernameSpec(username: string, name: string)
    ensures var r := DeriveUsername(username, name);
      && Trimmed(r)
      && (!Blank(username) ==> r == Trim(username))
      && (Blank(username) ==> NoSpace(r))
      && (Blank(username) ==> (r == "" <==> Blank(name)))
      && (Blank(username) ==> forall c :: c in r ==> !('A' <= c <= 'Z'))
  {
    var lowered := Lower(name);
    assert AllSpace(lowered) <==> AllSpace(name) by {
      assert forall i :: 0 <= i < |name| ==> (IsSpace(lowered[i]) <==> IsSpace(name[i]));
    }
    RemoveSpaceSpec(lowered);
    var r := RemoveSpace(lowered);
    assert r != [] ==> !IsSpace(r[0]) && !IsSpace(r[|r| - 1]);
  }

  /** With no username given, a name of two words separated by a space
      yields the two words lower-cased and joined. */
  lemma {:induction false} DerivedUsernameJoinsWords(first: string, last: string)
    requires NoSpace(first) && NoSpace(last)
    ensures DeriveUsername("", first + " " + last) == Lower(first) + Lower(last)
  {
    var lf, ll := Lower(first), Lower(last);
    assert Trim("") == "";
    assert Lower(first + " " + last) == lf + " " + ll by {
      LowerAppend(first + " ", last);
      LowerAppend(first, " ");
      assert Lower(" ") == " ";
    }
    assert NoSpace(lf) && NoSpace(ll);
    assert RemoveSpace(lf + " " + ll) == lf + ll by {
      RemoveSpaceAppend(lf + " ", ll);
      RemoveSpaceAppend(lf, " ");
      RemoveSpaceNoSpace(lf);
      RemoveSpaceNoSpace(ll);
      assert RemoveSpace(" ") == "";
    }
  }

  /** For example, a form with no username and the name "Ada Lovelace"
      submits the username "adalovelace". */
  lemma DeriveUsernameExample()
    ensures DeriveUsername("", "Ada Lovelace") == "adalovelace"
  {
    assert Lower("Ada") == "ada";
    assert Lower("Lovelace") == "lovelace";
    assert "Ada Lovelace" == "Ada" + " " + "Lovelace";
    DerivedUsernameJoinsWords("Ada", "Lovelace");
    assert "ada" + "lovelace" == "adalovelace";
  }

  /** The record `handleSubmit` passes to `onSubmit`: every input trimmed, the
      username derived, an empty `geo`, and no id. */
  function BuildProfile(data: FormData): (p: Profile)
    ensures Trimmed(p.name) && Trimmed(p.username) && Trimmed(p.email) && Trimmed(p.phone)
    ensures Trimmed(p.website) && Trimmed(p.company.name)
    ensures Trimmed(p.company.catchPhrase) && Trimmed(p.company.bs)
    ensures Trimmed(p.address.street) && Trimmed(p.address.suite)
    ensures Trimmed(p.address.city) && Trimmed(p.address.zipcode)
    ensures p.address.geo == Geo("", "")
    ensures p.name == Trim(data.name) && p.email == Trim(data.email) && p.phone == Trim(data.phone)
    ensures p.username == DeriveUsername(data.username, data.name)
    ensures p.website == Trim(data.website)
    ensures p.address.street == Trim(data.street) && p.address.suite == Trim(data.suite)
    ensures p.address.city == Trim(data.city) && p.address.zipcode == Trim(data.zipcode)
    ensures p.company.name == Trim(data.companyName)
    ensures p.company.catchPhrase == Trim(data.catchPhrase) && p.company.bs == Trim(data.bs)
  {
    DeriveUsernameSpec(data.username, data.name);
    Profile(
      name := Trim(data.name),
      username := DeriveUsername(data.username, data.name),
      email := Trim(data.email),
      phone := Trim(data.phone),
      website := Trim(data.website),
      address := Address(
        street := Trim(data.street),
        suite := Trim(data.suite),
        city := Trim(data.city),
        zipcode := Trim(data.zipcode),
        geo := Geo(lat := "", lng := "")),
      company := Company(
        name := Trim(data.companyName),
        catchPhrase := Trim(data.catchPhrase),
        bs := Trim(data.bs)))
  }

  /** A record built from a form that passed validation has a non-empty name,
      username and phone, and its email is the input as typed, which matches
      the pattern. */
  lemma SubmittedProfileIsComplete(data: FormData)
    requires ValidationErrors(data) == map[]
    ensures var p := BuildProfile(data);
      && p.name != "" && p.username != "" && p.phone != ""
      && p.email == data.email && MatchesEmailPattern(p.email)
  {
    AcceptedForms(data);
    EmailShapeMatchesPattern(data.email);
    TrimNoSpace(data.email);
    DeriveUsernameSpec(data.username, data.name);
  }

  // ---------------------------------------------------------------------
  // The form component's state and handlers

  class Form {
    var formData: FormData
    var errors: map<Field, string>

    constructor ()
      ensures formData == EmptyForm && errors == map[]
    {
      formData := EmptyForm;
      errors := map[];
    }

    /** `validateForm`: records the errors of the current inputs, replacing the
        previous ones, and answers whether there are none. */
    method ValidateForm() returns (ok: bool)
      modifies this
      ensures formData == old(formData)
      ensures errors == ValidationErrors(formData)
      ensures ok <==> errors == map[]
    {
      var newErrors: map<Field, string> := map[];
      if Blank(formData.name) {
        newErrors := newErrors[Name := NameRequired];
      }
      if Blank(formData.email) {
        newErrors := newErrors[Email := EmailRequired];
      } else if !EmailShape(formData.email) {
        newErrors := newErrors[Email := EmailInvalid];
      }
      if Blank(formData.phone) {
        newErrors := newErrors[Phone := PhoneRequired];
      }
      errors := newErrors;
      ok := |newErrors| == 0;
      assert ok <==> newErrors == map[] by {
        if !ok {
          var f :| f in newErrors;
        }
      }
    }

    /** `handleSubmit`: when validation fails, nothing is submitted and the
        inputs stay as typed; otherwise the built record is submitted and the
        form is reset. */
    method HandleSubmit() returns (submitted: Option<Profile>)
      modifies this
      ensures submitted.Some? <==> ValidationErrors(old(formData)) == map[]
      ensures submitted.None? ==>
        formData == old(formData) && errors == ValidationErrors(old(formData))
      ensures submitted.Some? ==>
        submitted.value == BuildProfile(old(formData)) && formData == EmptyForm && errors == map[]
    {
      var ok := ValidateForm();
      if !ok {
        return None;
      }
      var newUser := BuildProfile(formData);
      submitted := Some(newUser);
      formData := EmptyForm;
      errors := map[];
    }

    /** `handleChange(field)`: the input takes the typed value and that field's
        error, if one was recorded, is cleared; nothing else changes. */
    method HandleChange(field: Field, value: string)
      modifies this
      ensures formData == old(formData).Set(field, value)
      ensures field in old(errors) ==> errors == old(errors) - {field}
      ensures field !in old(errors) ==> errors == old(errors)
    {
      formData := formData.Set(field, value);
      if field in errors {
        errors := errors - {field};
      }
    }
  }
}
