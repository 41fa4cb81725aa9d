/** The Experience form: a list of work entries, each added blank with id "exp" + (count + 1). */
module ExperienceForm {
  import opened Text
  import opened ResumeTypes
  import opened FieldArray

  const IdPrefix: string := "exp"

  /** The entry "Add" appends: the given id and every other field empty. */
  function Blank(id: string): (r: Experience)
    ensures r.id == id
    ensures r.jobTitle == "" && r.company == "" && r.location == ""
    ensures r.startDate == "" && r.endDate == "" && r.description == ""
  {
    Experience(id, "", "", "", "", "", "")
  }

  /** An entry's id. */
  function Id(e: Experience): string {
    e.id
  }

  /** "Add": one blank entry goes last, every existing entry stays unchanged
      in place, and the new id is "exp" followed by the decimal digits of
      the new length. */
  function Add(xs: seq<Experience>): (r: seq<Experience>)
    ensures |r| == |xs| + 1
    ensures forall k :: 0 <= k < |xs| ==> r[k] == xs[k]
    ensures r[|xs|] == Blank(r[|xs|].id)
    ensures var id := r[|xs|].id;
            && |id| > |IdPrefix| && id[..|IdPrefix|] == IdPrefix
            && IsDigits(id[|IdPrefix|..]) && DecimalValue(id[|IdPrefix|..]) == |r|
            && id[|IdPrefix|] != '0'
  {
    Append(xs, Blank(NextId(IdPrefix, |xs|)))
  }

  /** The trash button of entry `i`: exactly that entry goes and the others
      keep their order. */
  function Remove(xs: seq<Experience>, i: nat): (r: seq<Experience>)
    requires i < |xs|
    ensures |r| == |xs| - 1
    ensures forall k :: 0 <= k < i ==> r[k] == xs[k]
    ensures forall k :: i <= k < |r| ==> r[k] == xs[k + 1]
    ensures multiset(r) + multiset{xs[i]} == multiset(xs)
  {
    RemoveAt(xs, i)
  }

  /** Starting from ids exp1..expN, removing entry `i` and adding one
      leaves distinct ids exactly when `i` was the last entry; otherwise the
      new entry repeats the id "expN" of the former last entry. */
  lemma RemoveThenAddIds(xs: seq<Experience>, i: nat)
    requires CanonicalIds(IdPrefix, IdsOf(xs, Id))
    requires i < |xs|
    ensures Distinct(IdsOf(Add(Remove(xs, i)), Id)) <==> i == |xs| - 1
  {
    RemoveThenAppendIds(IdPrefix, xs, Id, i, Blank(NextId(IdPrefix, |xs| - 1)));
  }

  /** After a removal, "Add" appends the blank entry whose id counts the
      entries left plus one. */
  lemma AddAfterRemove(xs: seq<Experience>, i: nat)
    requires i < |xs|
    ensures Add(Remove(xs, i))[|xs| - 1] == Blank(NextId(IdPrefix, |xs| - 1))
  {
    var rest := Remove(xs, i);
    assert |rest| == |xs| - 1;
  }

  /** Deleting any entry but the last from exp1..expN and then adding
      gives the new entry the id "expN" of the former last entry, which is
      still in the list. */
  lemma RemoveNonLastReusesLastId(xs: seq<Experience>, i: nat)
    requires CanonicalIds(IdPrefix, IdsOf(xs, Id))
    requires i < |xs| - 1
    ensures Add(Remove(xs, i))[|xs| - 1].id == xs[|xs| - 1].id == IdPrefix + Decimal(|xs|)
    ensures Add(Remove(xs, i))[|xs| - 2] == xs[|xs| - 1]
  {
    NextIdAfterRemoveIsLast(IdPrefix, xs, Id);
    AddAfterRemove(xs, i);
  }

  /** The sample entries exp1, exp2: deleting the first and adding gives a
      second "exp2". */
  lemma SampleDeleteFirstThenAdd()
    ensures IdsOf(InitialData.experience, Id) == ["exp1", "exp2"]
    ensures IdsOf(Add(Remove(InitialData.experience, 0)), Id) == ["exp2", "exp2"]
  {
    var xs := InitialData.experience;
    assert Decimal(1) == "1" && Decimal(2) == "2";
    assert NextId(IdPrefix, 1) == "exp2";
    assert Add(Remove(xs, 0)) == [xs[1], Blank("exp2")];
  }
}
