/** The profile editor: the user's name and two tag lists, skills and
    interests, each edited through an input box with an "add" button and a
    remove button per tag. */
module Profile {
  import opened Types
  import opened Seqs
  import opened Text

  datatype ProfileData = ProfileData(name: string, skills: seq<string>, interests: seq<string>)

  /** The profile being edited plus the two pending input boxes. */
  datatype ProfileEditor = ProfileEditor(data: ProfileData, newSkill: string, newInterest: string)

  /** The editor as loaded for `user`: missing fields become empty. */
  function LoadEditor(user: Option<User>): (e: ProfileEditor)
    ensures e.newSkill == "" && e.newInterest == ""
    ensures user.None? ==> e.data == ProfileData("", [], [])
    ensures user.Some? ==> e.data.name == user.value.name
    ensures user.Some? && user.value.skills.Some? ==> e.data.skills == user.value.skills.value
    ensures user.Some? && user.value.skills.None? ==> e.data.skills == []
    ensures user.Some? && user.value.interests.Some? ==> e.data.interests == user.value.interests.value
    ensures user.Some? && user.value.interests.None? ==> e.data.interests == []
  {
    match user
    case None => ProfileEditor(ProfileData("", [], []), "", "")
    case Some(u) => ProfileEditor(ProfileData(u.name, u.skills.GetOr([]), u.interests.GetOr([])), "", "")
  }

  /** Whether the add button accepts `input` for `tags`: its trimmed text is
      non-empty and not already listed. */
  predicate Accepts(tags: seq<string>, input: string) {
    !IsBlank(input) && Trim(input) !in tags
  }

  /** The add button: the trimmed input is appended when it is accepted;
      otherwise the list stays as it is. */
  function AddTag(tags: seq<string>, input: string): (r: seq<string>)
    ensures |tags| <= |r| <= |tags| + 1
    ensures r[..|tags|] == tags
    ensures |r| == |tags| + 1 <==> Accepts(tags, input)
    ensures |r| == |tags| + 1 ==> r[|tags|] == Trim(input)
    ensures NoDuplicates(tags) ==> NoDuplicates(r)
  {
    var t := Trim(input);
    if |t| > 0 && t !in tags then AppendNew(tags, t); tags + [t] else tags
  }

  /** After the add button a tag is listed exactly when it was listed before
      or it is the accepted trimmed input. */
  lemma AddTagMembers(tags: seq<string>, input: string, x: string)
    ensures x in AddTag(tags, input) <==> x in tags || (x == Trim(input) && Accepts(tags, input))
  {
    var r := AddTag(tags, input);
    if |r| == |tags| + 1 {
      assert r == tags + [Trim(input)];
    } else {
      assert r == tags;
    }
  }

  /** A remove button: every copy of `tag` goes, the rest keep their order. */
  function RemoveTag(tags: seq<string>, tag: string): (r: seq<string>)
    ensures tag !in r
    ensures forall x :: x != tag ==> (x in r <==> x in tags)
    ensures multiset(r) == multiset(tags)[tag := 0]
    ensures NoDuplicates(tags) ==> NoDuplicates(r)
  {
    var r := Without(tags, tag);
    if NoDuplicates(tags) then SubseqNoDuplicates(r, tags); r else r
  }

  /** Removing a tag keeps the others in their order. */
  lemma RemoveTagIsSubseq(tags: seq<string>, tag: string)
    ensures SubseqOf(RemoveTag(tags, tag), tags)
  {
  }

  /** Removing the tag just added gives back the list as it was. */
  lemma AddThenRemove(tags: seq<string>, input: string)
    requires Trim(input) !in tags
    ensures RemoveTag(AddTag(tags, input), Trim(input)) == tags
  {
    var t := Trim(input);
    if |t| > 0 {
      WithoutAppended(tags, t);
    } else {
      WithoutAbsent(tags, t);
    }
  }

  /** The skill "add" button; the input box is cleared only when the skill is added. */
  function AddSkill(e: ProfileEditor): (r: ProfileEditor)
    ensures r.data.skills == AddTag(e.data.skills, e.newSkill)
    ensures r.data.name == e.data.name && r.data.interests == e.data.interests
    ensures r.newInterest == e.newInterest
    ensures r.newSkill == (if Accepts(e.data.skills, e.newSkill) then "" else e.newSkill)
    ensures !Accepts(e.data.skills, e.newSkill) ==> r == e
  {
    if Accepts(e.data.skills, e.newSkill) then
      e.(data := e.data.(skills := AddTag(e.data.skills, e.newSkill)), newSkill := "")
    else e
  }

  function RemoveSkill(e: ProfileEditor, skill: string): (r: ProfileEditor)
    ensures r.data.skills == RemoveTag(e.data.skills, skill)
    ensures r.data.name == e.data.name && r.data.interests == e.data.interests
    ensures r.newSkill == e.newSkill && r.newInterest == e.newInterest
  {
    e.(data := e.data.(skills := RemoveTag(e.data.skills, skill)))
  }

  /** The interest "add" button, the same rule as for skills. */
  function AddInterest(e: ProfileEditor): (r: ProfileEditor)
    ensures r.data.interests == AddTag(e.data.interests, e.newInterest)
    ensures r.data.name == e.data.name && r.data.skills == e.data.skills
    ensures r.newSkill == e.newSkill
    ensures r.newInterest == (if Accepts(e.data.interests, e.newInterest) then "" else e.newInterest)
    ensures !Accepts(e.data.interests, e.newInterest) ==> r == e
  {
    if Accepts(e.data.interests, e.newInterest) then
      e.(data := e.data.(interests := AddTag(e.data.interests, e.newInterest)), newInterest := "")
    else e
  }

  function RemoveInterest(e: ProfileEditor, interest: string): (r: ProfileEditor)
    ensures r.data.interests == RemoveTag(e.data.interests, interest)
    ensures r.data.name == e.data.name && r.data.skills == e.data.skills
    ensures r.newSkill == e.newSkill && r.newInterest == e.newInterest
  {
    e.(data := e.data.(interests := RemoveTag(e.data.interests, interest)))
  }

  /** Adding a new skill and then removing it restores the skill list, and the
      interests are never touched. */
  lemma AddSkillThenRemove(e: ProfileEditor)
    requires Trim(e.newSkill) !in e.data.skills
    ensures RemoveSkill(AddSkill(e), Trim(e.newSkill)).data == e.data
  {
    AddThenRemove(e.data.skills, e.newSkill);
    if !Accepts(e.data.skills, e.newSkill) {
      WithoutAbsent(e.data.skills, Trim(e.newSkill));
    }
  }

  /** The same round trip for interests. */
  lemma AddInterestThenRemove(e: ProfileEditor)
    requires Trim(e.newInterest) !in e.data.interests
    ensures RemoveInterest(AddInterest(e), Trim(e.newInterest)).data == e.data
  {
    AddThenRemove(e.data.interests, e.newInterest);
    if !Accepts(e.data.interests, e.newInterest) {
      WithoutAbsent(e.data.interests, Trim(e.newInterest));
    }
  }
}
