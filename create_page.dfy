/**
 * The create-user form: its validation schema, the record it builds from
 * the submitted values, and the checkbox that sets `verified`.
 */
module CreatePage {
  import opened Strings
  import opened Users
  import opened Storage
  import opened ImagePattern

  const Companies: set<string> := {"Reliance", "Opportunity", "Hire you"}
  const Roles: set<string> := {"UI Designer", "Hr Manager", "Leader", "Developer"}
  const Statuses: set<string> := {"Active", "Banned", "Idle"}


  /** The form's initial image URL. */
  const DefaultImageUrl: string := "https://www.svgrepo.com/show/5125/avatar.svg"

  /** The form's fields as the user typed or chose them. */
  datatype FormValues = FormValues(
    id: string,
    name: string,
    imageUrl: string,
    company: string,
    role: string,
    verified: bool,
    status: string)

  /** The part of the default URL after `https://` ends in ".svg". */
  lemma DefaultImagePathEndsWithSvg()
    ensures EndsWithImageType("www.svgrepo.com/show/5125/avatar.svg")
  {
    var rest := "www.svgrepo.com/show/5125/avatar.svg";
    assert rest[33..] == "svg";
    assert rest[32] == '.';
  }

  /** The default image URL passes the `imageUrl` rule. */
  lemma DefaultImageUrlValid()
    ensures ImageUrlValid(DefaultImageUrl)
  {
    assert DefaultImageUrl[4] == 's';
    assert "https://" <= DefaultImageUrl;
    assert DefaultImageUrl[8..] == "www.svgrepo.com/show/5125/avatar.svg";
    DefaultImagePathEndsWithSvg();
  }

  /** `name`: required, and at least 3 characters, counted before any trimming. */
  predicate NameValid(name: string)
  {
    name != "" && |name| >= 3
  }

  /** The validation schema; formik calls `onSubmit` only when it holds. */
  predicate IsValid(v: FormValues)
  {
    && NameValid(v.name)
    && v.imageUrl != "" && ImageUrlValid(v.imageUrl)
    && v.company in Companies
    && v.role in Roles
    && v.status in Statuses
  }

  /** The record `onSubmit` builds: trimmed name and image, `verified` from the checkbox state. */
  function NewUser(v: FormValues, isVerified: bool): User
  {
    User(v.id, Trim(v.name), Trim(v.imageUrl), v.company, v.role, isVerified, v.status)
  }

  /**
   * The stored record of a valid form keeps the id, the choices and a valid
   * image URL; its name is the trimmed name, which can be shorter than the
   * name that was validated.
   */
  lemma SubmittedRecordFollowsSchema(v: FormValues, isVerified: bool)
    requires IsValid(v)
    ensures var u := NewUser(v, isVerified);
            && u.id == v.id && u.verified == isVerified
            && u.company == v.company && u.role == v.role && u.status == v.status
            && u.name == Trim(v.name) && u.imageUrl == Trim(v.imageUrl)
            && u.company in Companies && u.role in Roles && u.status in Statuses
            && ImageUrlValid(u.imageUrl)
            && |u.name| <= |v.name| && (u.name == [] || !IsWhitespace(u.name[0]))
  {
    ValidImageUrlSurvivesTrim(v.imageUrl);
  }

  /** `"  a".trim()` is "a". */
  lemma TrimTwoBlanksAndA()
    ensures Trim("  a") == "a"
  {
    assert "  a"[1..] == " a";
    assert " a"[1..] == "a";
  }

  /** The name "  a" passes validation, and the stored record is named "a". */
  lemma PaddedShortNamePasses(v: FormValues, isVerified: bool)
    requires v.name == "  a"
    ensures NameValid(v.name)
    ensures NewUser(v, isVerified).name == "a"
  {
    TrimTwoBlanksAndA();
  }

  /** What a press of the submit button led to. */
  datatype SubmitResult = Invalid | Submitted | Threw(error: StorageError)

  /** The form's own state: the `verified` checkbox. */
  class CreateForm {
    var isVerified: bool

    constructor ()
      ensures !isVerified
    {
      isVerified := false;
    }

    /** `handleIsVerified`: flip the checkbox state. */
    method HandleIsVerified()
      modifies this
      ensures isVerified == !old(isVerified)
    {
      isVerified := !isVerified;
    }

    /**
     * `handleSubmit`: validate the values against the schema and, when they
     * pass, run `onSubmit`, which appends the built record through
     * `createUser`.
     */
    method HandleSubmit(storage: LocalStorage, values: FormValues) returns (r: SubmitResult)
      modifies storage
      ensures !IsValid(values) ==> r == Invalid
      ensures IsValid(values) ==> r != Invalid
      ensures r != Submitted ==> storage.items == old(storage.items)
      ensures IsValid(values) ==> (r == Submitted <==> GetUsers(old(storage.items)).Ok?)
      ensures r == Submitted ==>
                storage.items == old(storage.items)[UserKey := Json(GetUsers(old(storage.items)).value + [NewUser(values, isVerified)])]
      ensures r == Submitted ==>
                |GetUsers(storage.items).value| == |GetUsers(old(storage.items)).value| + 1
    {
      if !IsValid(values) {
        return Invalid;
      }
      var newUser := NewUser(values, isVerified);
      var created := CreateUser(storage, newUser);
      if created.Err? {
        return Threw(created.error);
      }
      r := Submitted;
    }
  }
}
