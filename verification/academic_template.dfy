/** The Academic template's one piece of logic: experience entries whose
    company is "publication" in any letter case are listed as publications,
    the rest as professional experience, and each section is rendered only
    when it has something to show. */
module AcademicTemplate {
  import opened Text
  import opened ResumeTypes

  const PublicationMarker: string := "publication"

  /** `exp.company.toLowerCase() === 'publication'`: the lower-case spelling
      itself matches, and a match has exactly its eleven characters. */
  predicate IsPublication(e: Experience)
    ensures e.company == PublicationMarker ==> IsPublication(e)
    ensures IsPublication(e) ==> |e.company| == |PublicationMarker|
  {
    ToLower(e.company) == PublicationMarker
  }

  /** The entries whose publication test gives `publication`, in order. */
  function Select(xs: seq<Experience>, publication: bool): (r: seq<Experience>)
    ensures |r| <= |xs|
    ensures forall e :: e in r <==> e in xs && IsPublication(e) == publication
  {
    if |xs| == 0 then []
    else (if IsPublication(xs[0]) == publication then [xs[0]] else []) + Select(xs[1..], publication)
  }

  /** The `publications` list. */
  function Publications(xs: seq<Experience>): (r: seq<Experience>)
    ensures forall e :: e in r <==> e in xs && IsPublication(e)
  {
    Select(xs, true)
  }

  /** The `professionalExperience` list. */
  function ProfessionalExperience(xs: seq<Experience>): (r: seq<Experience>)
    ensures forall e :: e in r <==> e in xs && !IsPublication(e)
  {
    Select(xs, false)
  }

  /** `xs` is a merge of `p` and `q`: every element of `xs` is taken, in
      order, from the front of exactly one of the two lists. */
  predicate Interleaves<T(==)>(xs: seq<T>, p: seq<T>, q: seq<T>)
    decreases |xs|
  {
    if |xs| == 0 then p == [] && q == []
    else
      || (|p| > 0 && p[0] == xs[0] && Interleaves(xs[1..], p[1..], q))
      || (|q| > 0 && q[0] == xs[0] && Interleaves(xs[1..], p, q[1..]))
  }

  /** A merge uses each element exactly once: the lengths add up and the
      two lists together hold the same elements as `xs`. */
  lemma {:induction false} InterleavesCounts<T>(xs: seq<T>, p: seq<T>, q: seq<T>)
    requires Interleaves(xs, p, q)
    ensures |p| + |q| == |xs|
    ensures multiset(p) + multiset(q) == multiset(xs)
    decreases |xs|
  {
    if |xs| > 0 {
      assert xs == [xs[0]] + xs[1..];
      if |p| > 0 && p[0] == xs[0] && Interleaves(xs[1..], p[1..], q) {
        InterleavesCounts(xs[1..], p[1..], q);
        assert p == [p[0]] + p[1..];
      } else {
        InterleavesCounts(xs[1..], p, q[1..]);
        assert q == [q[0]] + q[1..];
      }
    }
  }

  /** The two lists partition the experience: each entry goes, in its
      original relative order, to exactly one of them. */
  lemma {:induction false} PartitionInterleaves(xs: seq<Experience>)
    ensures Interleaves(xs, Publications(xs), ProfessionalExperience(xs))
    decreases |xs|
  {
    if |xs| > 0 {
      PartitionInterleaves(xs[1..]);
      var p, q := Publications(xs), ProfessionalExperience(xs);
      if IsPublication(xs[0]) {
        assert p == [xs[0]] + Publications(xs[1..]);
        assert q == ProfessionalExperience(xs[1..]);
        assert p[1..] == Publications(xs[1..]);
      } else {
        assert p == Publications(xs[1..]);
        assert q == [xs[0]] + ProfessionalExperience(xs[1..]);
        assert q[1..] == ProfessionalExperience(xs[1..]);
      }
    }
  }

  /** The lengths add up to the experience length and no entry is lost or
      duplicated. */
  lemma PartitionComplete(xs: seq<Experience>)
    ensures |Publications(xs)| + |ProfessionalExperience(xs)| == |xs|
    ensures multiset(Publications(xs)) + multiset(ProfessionalExperience(xs)) == multiset(xs)
  {
    PartitionInterleaves(xs);
    InterleavesCounts(xs, Publications(xs), ProfessionalExperience(xs));
  }

  /** Splitting a list splits both views. */
  lemma {:induction false} SelectAppend(a: seq<Experience>, b: seq<Experience>, publication: bool)
    ensures Select(a + b, publication) == Select(a, publication) + Select(b, publication)
    decreases |a|
  {
    if |a| == 0 {
      assert a + b == b;
    } else {
      assert (a + b)[1..] == a[1..] + b;
      SelectAppend(a[1..], b, publication);
    }
  }

  /** The match folds case and nothing else: the company must have exactly
      the eleven letters of "publication", each in lower or upper case. */
  lemma IsPublicationIff(e: Experience)
    ensures IsPublication(e) <==>
              && |e.company| == |PublicationMarker|
              && forall i :: 0 <= i < |PublicationMarker| ==>
                   e.company[i] == PublicationMarker[i]
                   || e.company[i] as int == PublicationMarker[i] as int - 32
  {
    var c := e.company;
    if |c| == |PublicationMarker| {
      forall i | 0 <= i < |PublicationMarker|
        ensures LowerChar(c[i]) == PublicationMarker[i] <==>
                  c[i] == PublicationMarker[i] || c[i] as int == PublicationMarker[i] as int - 32
      {
        LowerCharIsLetter(c[i], PublicationMarker[i]);
      }
      assert IsPublication(e) <==> forall i :: 0 <= i < |c| ==> LowerChar(c[i]) == PublicationMarker[i];
    }
  }

  /** Concrete cases: upper case matches; a plural or a leading space does not. */
  lemma MatchExamples(e: Experience)
    ensures IsPublication(e.(company := "PUBLICATION"))
    ensures IsPublication(e.(company := "Publication"))
    ensures !IsPublication(e.(company := "Publications"))
    ensures !IsPublication(e.(company := " publication"))
  {
    IsPublicationIff(e.(company := "PUBLICATION"));
    IsPublicationIff(e.(company := "Publication"));
    IsPublicationIff(e.(company := " publication"));
    assert " publication"[0] == ' ';
  }

  /** The sample resume has no publications. */
  lemma InitialDataHasNoPublications()
    ensures Publications(InitialData.experience) == []
    ensures ProfessionalExperience(InitialData.experience) == InitialData.experience
  {
    var xs := InitialData.experience;
    assert !IsPublication(xs[0]) && !IsPublication(xs[1]);
    assert xs[1..][1..] == [];
  }

  /** The template's sections, top to bottom. */
  datatype Section =
    | ResearchStatement
    | EducationSection
    | PublicationsSection
    | ProfessionalExperienceSection
    | ResearchProjects
    | SkillsSection

  /** The page order of the sections. */
  const PageOrder: seq<Section> := [
    ResearchStatement, EducationSection, PublicationsSection,
    ProfessionalExperienceSection, ResearchProjects, SkillsSection]

  /** Whether section `s` is rendered for `d`: only when its content is
      non-empty. Publications is rendered exactly when some entry is a
      publication, Professional Experience exactly when some entry is not. */
  predicate Shown(d: ResumeData, s: Section)
    ensures s == PublicationsSection ==>
              (Shown(d, s) <==> exists e :: e in d.experience && IsPublication(e))
    ensures s == ProfessionalExperienceSection ==>
              (Shown(d, s) <==> exists e :: e in d.experience && !IsPublication(e))
  {
    match s
    case ResearchStatement => d.summary != ""
    case EducationSection => |d.education| > 0
    case PublicationsSection =>
      var pubs := Publications(d.experience);
      assert |pubs| > 0 <==> exists e :: e in d.experience && IsPublication(e) by {
        if |pubs| > 0 {
          assert pubs[0] in pubs;
        }
      }
      |pubs| > 0
    case ProfessionalExperienceSection =>
      var pro := ProfessionalExperience(d.experience);
      assert |pro| > 0 <==> exists e :: e in d.experience && !IsPublication(e) by {
        if |pro| > 0 {
          assert pro[0] in pro;
        }
      }
      |pro| > 0
    case ResearchProjects => |d.projects| > 0
    case SkillsSection => |d.skills| > 0
  }

  /** A section's position on the page. */
  function Rank(s: Section): (n: nat)
    ensures n < |PageOrder| && PageOrder[n] == s
  {
    match s
    case ResearchStatement => 0
    case EducationSection => 1
    case PublicationsSection => 2
    case ProfessionalExperienceSection => 3
    case ResearchProjects => 4
    case SkillsSection => 5
  }

  /** The sections strictly follow page order: each comes after the ones
      before it, so none is repeated. */
  predicate InPageOrder(ss: seq<Section>) {
    forall i, j :: 0 <= i < j < |ss| ==> Rank(ss[i]) < Rank(ss[j])
  }

  lemma InPageOrderTail(order: seq<Section>)
    requires |order| > 0 && InPageOrder(order)
    ensures InPageOrder(order[1..])
    ensures forall k :: 0 <= k < |order[1..]| ==> Rank(order[0]) < Rank(order[1..][k])
  {
    forall i, j | 0 <= i < j < |order[1..]|
      ensures Rank(order[1..][i]) < Rank(order[1..][j])
    {
      assert order[1..][i] == order[i + 1] && order[1..][j] == order[j + 1];
    }
    forall k | 0 <= k < |order[1..]|
      ensures Rank(order[0]) < Rank(order[1..][k])
    {
      assert order[1..][k] == order[k + 1];
    }
  }

  lemma InPageOrderCons(x: Section, rest: seq<Section>)
    requires InPageOrder(rest)
    requires forall s :: s in rest ==> Rank(x) < Rank(s)
    ensures InPageOrder([x] + rest)
  {
    var r := [x] + rest;
    forall i, j | 0 <= i < j < |r|
      ensures Rank(r[i]) < Rank(r[j])
    {
      assert r[j] == rest[j - 1] && rest[j - 1] in rest;
      if i > 0 {
        assert r[i] == rest[i - 1];
      }
    }
  }

  /** The sections of `order` that are shown for `d`, in that order. */
  function ShownAmong(d: ResumeData, order: seq<Section>): (r: seq<Section>)
    ensures |r| <= |order|
    ensures forall s :: s in r <==> s in order && Shown(d, s)
  {
    if |order| == 0 then []
    else (if Shown(d, order[0]) then [order[0]] else []) + ShownAmong(d, order[1..])
  }

  /** Keeping only the shown sections keeps them in page order. */
  lemma {:induction false} ShownAmongInOrder(d: ResumeData, order: seq<Section>)
    requires InPageOrder(order)
    ensures InPageOrder(ShownAmong(d, order))
    decreases |order|
  {
    if |order| > 0 {
      InPageOrderTail(order);
      ShownAmongInOrder(d, order[1..]);
      var rest := ShownAmong(d, order[1..]);
      assert forall s :: s in rest ==> Rank(order[0]) < Rank(s);
      if Shown(d, order[0]) {
        InPageOrderCons(order[0], rest);
      }
    }
  }

  /** The rendered sections, in page order: exactly the shown ones, each
      once, top to bottom. */
  function Sections(d: ResumeData): (r: seq<Section>)
    ensures forall s :: s in r <==> Shown(d, s)
    ensures InPageOrder(r)
    ensures |r| <= |PageOrder|
  {
    ShownAmongInOrder(d, PageOrder);
    ShownAmong(d, PageOrder)
  }
}
