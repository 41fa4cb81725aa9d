/** The form's validation schema. It fixes the shape of the resume record:
    an object of objects and arrays whose every leaf is a string. It puts no
    constraint on the content of any string, and it drops keys it does not
    know, as object schemas do by default. Values are modelled as the
    JavaScript values a form can hold. */
module ResumeSchema {
  import opened Results
  import opened ResumeTypes

  /** A JavaScript value as the schema sees it. */
  datatype Value =
    | Undefined
    | Null
    | Bool(b: bool)
    | Number(n: int)
    | Str(s: string)
    | Array(items: seq<Value>)
    | Object(fields: map<string, Value>)

  datatype PathItem = Key(key: string) | Index(index: nat)

  type Path = seq<PathItem>

  /** Where validation failed and what it expected there. */
  datatype Issue = Issue(path: Path, expected: Expected)

  datatype Expected = ExpectString | ExpectArray | ExpectObject

  /** The property `key` of an object; a missing property reads as undefined. */
  function Get(fields: map<string, Value>, key: string): Value {
    if key in fields then fields[key] else Undefined
  }

  /** `z.string()`: accepts every string, the empty one included, and
      nothing else. */
  function AsString(v: Value, path: Path): (r: Result<string, Issue>)
    ensures r.Success? <==> v.Str?
    ensures r.Success? ==> r.value == v.s
    ensures r.Failure? ==> r.error == Issue(path, ExpectString)
  {
    if v.Str? then Success(v.s) else Failure(Issue(path, ExpectString))
  }

  function StringAt(fields: map<string, Value>, key: string, path: Path): Result<string, Issue> {
    AsString(Get(fields, key), path + [Key(key)])
  }

  function AsObject(v: Value, path: Path): (r: Result<map<string, Value>, Issue>)
    ensures r.Success? <==> v.Object?
  {
    if v.Object? then Success(v.fields) else Failure(Issue(path, ExpectObject))
  }

  /** `z.array(element)`: every item must pass `element`; the first failing
      item decides the issue. */
  function Items<T>(items: seq<Value>, element: (Value, Path) -> Result<T, Issue>, path: Path, from: nat)
    : (r: Result<seq<T>, Issue>)
    ensures r.Success? ==> |r.value| == |items|
    decreases |items|
  {
    if |items| == 0 then Success([])
    else
      var x :- element(items[0], path + [Index(from)]);
      var rest :- Items(items[1..], element, path, from + 1);
      Success([x] + rest)
  }

  /** An array passes exactly when every item passes at its own index, and
      then each parsed item is what `element` made of it. */
  lemma {:induction false} ItemsIff<T>(items: seq<Value>, element: (Value, Path) -> Result<T, Issue>, path: Path, from: nat)
    ensures Items(items, element, path, from).Success? <==>
              forall i :: 0 <= i < |items| ==> element(items[i], path + [Index(from + i)]).Success?
    ensures Items(items, element, path, from).Success? ==>
              forall i :: 0 <= i < |items| ==>
                Items(items, element, path, from).value[i] == element(items[i], path + [Index(from + i)]).value
    decreases |items|
  {
    if |items| > 0 {
      ItemsIff(items[1..], element, path, from + 1);
      forall i | 1 <= i < |items|
        ensures items[1..][i - 1] == items[i] && from + 1 + (i - 1) == from + i
      {
      }
    }
  }

  /** The array property `key`: anything but an array is rejected at
      that key, and an accepted array gives one value per item, each the
      parse of its item at its own index. */
  function ArrayAt<T>(fields: map<string, Value>, key: string, element: (Value, Path) -> Result<T, Issue>, path: Path)
    : (r: Result<seq<T>, Issue>)
    ensures !Get(fields, key).Array? ==> r == Failure(Issue(path + [Key(key)], ExpectArray))
    ensures r.Success? ==> Get(fields, key).Array? && |r.value| == |Get(fields, key).items|
    ensures r.Success? ==>
              forall i :: 0 <= i < |r.value| ==>
                element(Get(fields, key).items[i], path + [Key(key)] + [Index(i)]) == Success(r.value[i])
  {
    var v := Get(fields, key);
    if v.Array? then
      ItemsIff(v.items, element, path + [Key(key)], 0);
      Items(v.items, element, path + [Key(key)], 0)
    else Failure(Issue(path + [Key(key)], ExpectArray))
  }

  const PersonalInfoKeys: seq<string> := ["name", "title", "phone", "email", "linkedin", "github"]

  /** Accepts exactly an object whose six properties are all strings, and
      takes each field from its property. */
  function PersonalInfoSchema(v: Value, path: Path): (r: Result<PersonalInfo, Issue>)
    ensures r.Success? <==> v.Object? && forall k :: k in PersonalInfoKeys ==> Get(v.fields, k).Str?
    ensures r.Success? ==>
              && r.value.name == Get(v.fields, "name").s && r.value.title == Get(v.fields, "title").s
              && r.value.phone == Get(v.fields, "phone").s && r.value.email == Get(v.fields, "email").s
              && r.value.linkedin == Get(v.fields, "linkedin").s && r.value.github == Get(v.fields, "github").s
  {
    var o :- AsObject(v, path);
    var name :- StringAt(o, "name", path);
    var title :- StringAt(o, "title", path);
    var phone :- StringAt(o, "phone", path);
    var email :- StringAt(o, "email", path);
    var linkedin :- StringAt(o, "linkedin", path);
    var github :- StringAt(o, "github", path);
    Success(PersonalInfo(name, title, phone, email, linkedin, github))
  }

  const ExperienceKeys: seq<string> := ["id", "jobTitle", "company", "location", "startDate", "endDate", "description"]

  /** Accepts exactly an object whose seven properties are all strings, and
      takes each field from its property. */
  function ExperienceSchema(v: Value, path: Path): (r: Result<Experience, Issue>)
    ensures r.Success? <==> v.Object? && forall k :: k in ExperienceKeys ==> Get(v.fields, k).Str?
    ensures r.Success? ==>
              && r.value.id == Get(v.fields, "id").s && r.value.jobTitle == Get(v.fields, "jobTitle").s
              && r.value.company == Get(v.fields, "company").s && r.value.location == Get(v.fields, "location").s
              && r.value.startDate == Get(v.fields, "startDate").s && r.value.endDate == Get(v.fields, "endDate").s
              && r.value.description == Get(v.fields, "description").s
  {
    var o :- AsObject(v, path);
    var id :- StringAt(o, "id", path);
    var jobTitle :- StringAt(o, "jobTitle", path);
    var company :- StringAt(o, "company", path);
    var location :- StringAt(o, "location", path);
    var startDate :- StringAt(o, "startDate", path);
    var endDate :- StringAt(o, "endDate", path);
    var description :- StringAt(o, "description", path);
    Success(Experience(id, jobTitle, company, location, startDate, endDate, description))
  }

  const EducationKeys: seq<string> := ["id", "degree", "school", "location", "graduationYear"]

  /** Accepts exactly an object whose five properties are all strings, and
      takes each field from its property. */
  function EducationSchema(v: Value, path: Path): (r: Result<Education, Issue>)
    ensures r.Success? <==> v.Object? && forall k :: k in EducationKeys ==> Get(v.fields, k).Str?
    ensures r.Success? ==>
              && r.value.id == Get(v.fields, "id").s && r.value.degree == Get(v.fields, "degree").s
              && r.value.school == Get(v.fields, "school").s && r.value.location == Get(v.fields, "location").s
              && r.value.graduationYear == Get(v.fields, "graduationYear").s
  {
    var o :- AsObject(v, path);
    var id :- StringAt(o, "id", path);
    var degree :- StringAt(o, "degree", path);
    var school :- StringAt(o, "school", path);
    var location :- StringAt(o, "location", path);
    var graduationYear :- StringAt(o, "graduationYear", path);
    Success(Education(id, degree, school, location, graduationYear))
  }

  const ProjectKeys: seq<string> := ["id", "name", "description", "link"]

  /** Accepts exactly an object whose four properties are all strings, and
      takes each field from its property. */
  function ProjectSchema(v: Value, path: Path): (r: Result<Project, Issue>)
    ensures r.Success? <==> v.Object? && forall k :: k in ProjectKeys ==> Get(v.fields, k).Str?
    ensures r.Success? ==>
              && r.value.id == Get(v.fields, "id").s && r.value.name == Get(v.fields, "name").s
              && r.value.description == Get(v.fields, "description").s && r.value.link == Get(v.fields, "link").s
  {
    var o :- AsObject(v, path);
    var id :- StringAt(o, "id", path);
    var name :- StringAt(o, "name", path);
    var description :- StringAt(o, "description", path);
    var link :- StringAt(o, "link", path);
    Success(Project(id, name, description, link))
  }

  /** `resumeSchema` applied to a form value. Anything but an object is
      rejected at the root; an accepted value takes the personal details,
      the summary and every entry of each array from its own property. */
  function Validate(v: Value): (r: Result<ResumeData, Issue>)
    ensures !v.Object? ==> r == Failure(Issue([], ExpectObject))
    ensures r.Success? ==> v.Object? && Get(v.fields, "summary") == Str(r.value.summary)
    ensures r.Success? ==>
              && Get(v.fields, "experience").Array? && |r.value.experience| == |Get(v.fields, "experience").items|
              && Get(v.fields, "education").Array? && |r.value.education| == |Get(v.fields, "education").items|
              && Get(v.fields, "skills").Array? && |r.value.skills| == |Get(v.fields, "skills").items|
              && Get(v.fields, "projects").Array? && |r.value.projects| == |Get(v.fields, "projects").items|
    ensures r.Success? ==>
              && PersonalInfoSchema(Get(v.fields, "personalInfo"), [Key("personalInfo")]) == Success(r.value.personalInfo)
              && ArrayAt(v.fields, "experience", ExperienceSchema, []) == Success(r.value.experience)
              && ArrayAt(v.fields, "education", EducationSchema, []) == Success(r.value.education)
              && ArrayAt(v.fields, "skills", AsString, []) == Success(r.value.skills)
              && ArrayAt(v.fields, "projects", ProjectSchema, []) == Success(r.value.projects)
  {
    var o :- AsObject(v, []);
    var personalInfo :- PersonalInfoSchema(Get(o, "personalInfo"), [Key("personalInfo")]);
    var summary :- StringAt(o, "summary", []);
    var experience :- ArrayAt(o, "experience", ExperienceSchema, []);
    var education :- ArrayAt(o, "education", EducationSchema, []);
    var skills :- ArrayAt(o, "skills", AsString, []);
    var projects :- ArrayAt(o, "projects", ProjectSchema, []);
    Success(ResumeData(personalInfo, summary, experience, education, skills, projects))
  }

  function EncodePersonalInfo(p: PersonalInfo): Value {
    Object(map[
      "name" := Str(p.name), "title" := Str(p.title), "phone" := Str(p.phone),
      "email" := Str(p.email), "linkedin" := Str(p.linkedin), "github" := Str(p.github)])
  }

  function EncodeExperience(e: Experience): Value {
    Object(map[
      "id" := Str(e.id), "jobTitle" := Str(e.jobTitle), "company" := Str(e.company),
      "location" := Str(e.location), "startDate" := Str(e.startDate),
      "endDate" := Str(e.endDate), "description" := Str(e.description)])
  }

  function EncodeEducation(e: Education): Value {
    Object(map[
      "id" := Str(e.id), "degree" := Str(e.degree), "school" := Str(e.school),
      "location" := Str(e.location), "graduationYear" := Str(e.graduationYear)])
  }

  function EncodeProject(p: Project): Value {
    Object(map[
      "id" := Str(p.id), "name" := Str(p.name), "description" := Str(p.description),
      "link" := Str(p.link)])
  }

  function EncodeString(s: string): Value {
    Str(s)
  }

  function EncodeAll<T>(xs: seq<T>, encode: T -> Value): (r: seq<Value>)
    ensures |r| == |xs|
    ensures forall i :: 0 <= i < |xs| ==> r[i] == encode(xs[i])
  {
    seq(|xs|, i requires 0 <= i < |xs| => encode(xs[i]))
  }

  /** The resume record as the plain object the form holds. */
  function Encode(d: ResumeData): Value {
    Object(map[
      "personalInfo" := EncodePersonalInfo(d.personalInfo),
      "summary" := Str(d.summary),
      "experience" := Array(EncodeAll(d.experience, EncodeExperience)),
      "education" := Array(EncodeAll(d.education, EncodeEducation)),
      "skills" := Array(EncodeAll(d.skills, EncodeString)),
      "projects" := Array(EncodeAll(d.projects, EncodeProject))])
  }

  /** An array of encoded items validates back to the items when each item
      does. */
  lemma {:induction false} ItemsOfEncoded<T>(
    xs: seq<T>, encode: T -> Value, element: (Value, Path) -> Result<T, Issue>, path: Path, from: nat)
    requires forall x, p :: element(encode(x), p) == Success(x)
    ensures Items(EncodeAll(xs, encode), element, path, from) == Success(xs)
    decreases |xs|
  {
    if |xs| > 0 {
      assert EncodeAll(xs, encode)[1..] == EncodeAll(xs[1..], encode);
      ItemsOfEncoded(xs[1..], encode, element, path, from + 1);
      assert xs == [xs[0]] + xs[1..];
    }
  }

  lemma EntriesRoundTrip()
    ensures forall p: PersonalInfo, path :: PersonalInfoSchema(EncodePersonalInfo(p), path) == Success(p)
    ensures forall e: Experience, path :: ExperienceSchema(EncodeExperience(e), path) == Success(e)
    ensures forall e: Education, path :: EducationSchema(EncodeEducation(e), path) == Success(e)
    ensures forall p: Project, path :: ProjectSchema(EncodeProject(p), path) == Success(p)
    ensures forall s: string, path :: AsString(EncodeString(s), path) == Success(s)
  {
  }

  /** The plain-object form holds each part of the record under its key. */
  lemma EncodeFields(d: ResumeData)
    ensures var o := Encode(d).fields;
            && Get(o, "personalInfo") == EncodePersonalInfo(d.personalInfo)
            && Get(o, "summary") == Str(d.summary)
            && Get(o, "experience") == Array(EncodeAll(d.experience, EncodeExperience))
            && Get(o, "education") == Array(EncodeAll(d.education, EncodeEducation))
            && Get(o, "skills") == Array(EncodeAll(d.skills, EncodeString))
            && Get(o, "projects") == Array(EncodeAll(d.projects, EncodeProject))
  {
  }

  lemma ArrayAtOfEncoded<T>(
    o: map<string, Value>, key: string, xs: seq<T>, encode: T -> Value, element: (Value, Path) -> Result<T, Issue>)
    requires forall x, p :: element(encode(x), p) == Success(x)
    requires Get(o, key) == Array(EncodeAll(xs, encode))
    ensures ArrayAt(o, key, element, []) == Success(xs)
  {
    ItemsOfEncoded(xs, encode, element, [] + [Key(key)], 0);
  }

  /** The schema accepts every resume, whatever its strings hold, the empty
      string included: validating its plain-object form gives it back. */
  lemma ValidateEncode(d: ResumeData)
    ensures Validate(Encode(d)) == Success(d)
  {
    EntriesRoundTrip();
    EncodeFields(d);
    var o := Encode(d).fields;
    ArrayAtOfEncoded(o, "experience", d.experience, EncodeExperience, ExperienceSchema);
    ArrayAtOfEncoded(o, "education", d.education, EncodeEducation, EducationSchema);
    ArrayAtOfEncoded(o, "skills", d.skills, EncodeString, AsString);
    ArrayAtOfEncoded(o, "projects", d.projects, EncodeProject, ProjectSchema);
    ValidateOf(o, d);
  }

  /** Validation of an object whose parts each validate. */
  lemma ValidateOf(o: map<string, Value>, d: ResumeData)
    requires PersonalInfoSchema(Get(o, "personalInfo"), [Key("personalInfo")]) == Success(d.personalInfo)
    requires StringAt(o, "summary", []) == Success(d.summary)
    requires ArrayAt(o, "experience", ExperienceSchema, []) == Success(d.experience)
    requires ArrayAt(o, "education", EducationSchema, []) == Success(d.education)
    requires ArrayAt(o, "skills", AsString, []) == Success(d.skills)
    requires ArrayAt(o, "projects", ProjectSchema, []) == Success(d.projects)
    ensures Validate(Object(o)) == Success(d)
  {
  }

  /** Unknown top-level keys are dropped, not rejected. */
  lemma ValidateIgnoresUnknownKey(d: ResumeData, key: string, extra: Value)
    requires key !in Encode(d).fields
    ensures Validate(Object(Encode(d).fields[key := extra])) == Success(d)
  {
    EntriesRoundTrip();
    EncodeFields(d);
    var o := Encode(d).fields;
    var o' := o[key := extra];
    assert Get(o', "personalInfo") == Get(o, "personalInfo");
    assert Get(o', "summary") == Get(o, "summary");
    assert StringAt(o', "summary", []) == Success(d.summary);
    ArrayAtOfEncoded(o', "experience", d.experience, EncodeExperience, ExperienceSchema);
    ArrayAtOfEncoded(o', "education", d.education, EncodeEducation, EducationSchema);
    ArrayAtOfEncoded(o', "skills", d.skills, EncodeString, AsString);
    ArrayAtOfEncoded(o', "projects", d.projects, EncodeProject, ProjectSchema);
    ValidateOf(o', d);
  }

  /** With a valid personal-info part, the summary decides: when it is not a
      string, validation fails at ["summary"]. */
  lemma ValidateStopsAtSummary(o: map<string, Value>, p: PersonalInfo)
    requires PersonalInfoSchema(Get(o, "personalInfo"), [Key("personalInfo")]) == Success(p)
    requires !Get(o, "summary").Str?
    ensures Validate(Object(o)) == Failure(Issue([Key("summary")], ExpectString))
  {
    assert [] + [Key("summary")] == [Key("summary")];
  }

  /** Shape is enforced: a summary that is not a string is rejected at the
      path ["summary"], and so is a missing one. */
  lemma ValidateRejectsNonStringSummary(d: ResumeData, bad: Value)
    requires !bad.Str?
    ensures Validate(Object(Encode(d).fields["summary" := bad])) == Failure(Issue([Key("summary")], ExpectString))
    ensures Validate(Object(Encode(d).fields - {"summary"})) == Failure(Issue([Key("summary")], ExpectString))
  {
    EntriesRoundTrip();
    EncodeFields(d);
    var o := Encode(d).fields;
    var o' := o["summary" := bad];
    assert Get(o', "personalInfo") == Get(o, "personalInfo");
    ValidateStopsAtSummary(o', d.personalInfo);
    var o'' := o - {"summary"};
    assert Get(o'', "personalInfo") == Get(o, "personalInfo");
    ValidateStopsAtSummary(o'', d.personalInfo);
  }
}
