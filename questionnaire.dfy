/** The questionnaire of the AI literacy self-assessment: which answer keys a
    respondent sees for the position they select, in which order, and which
    values the answers can take. */
module Questionnaire {

  /** The sentinel the position box starts on: nothing is asked yet. */
  const Unselected := "선택하세요"
  const Member := "구성원(팀/지점)"
  const Staff := "Staff(기획/HR/재무 등)"
  const Leader := "리더(팀장/지점장/파트장)"
  const Executive := "임원"

  /** The five-point agreement scale, weakest first. */
  const Options: seq<string> := ["1.전혀 그렇지 않다", "2.그렇지 않다", "3.보통이다", "4.그렇다", "5.매우 그렇다"]

  /** The label every slider starts on. */
  const DefaultLabel := "3.보통이다"

  /** A position on the scale: an index into Options. */
  type Level = i: int | 0 <= i < 5

  const CommonKeys: seq<string> :=
    ["공통_A1", "공통_A2", "공통_A3", "공통_B1", "공통_B2", "공통_B3", "공통_C1", "공통_C2", "공통_C3"]
  const StaffKeys: seq<string> := ["Staff_D1", "Staff_D2", "Staff_D3", "Staff_E1", "Staff_E2"]
  const LeaderKeys: seq<string> := ["리더_F1", "리더_F2", "리더_F3", "리더_G1", "리더_G2"]
  const ExecutiveKeys: seq<string> := ["임원_H1", "임원_H2", "임원_H3"]
  /** The two free-text questions, asked of everyone after the scale questions. */
  const EssayKeys: seq<string> := ["주관식_1", "주관식_2"]

  predicate Distinct(s: seq<string>) {
    forall i, j :: 0 <= i < j < |s| ==> s[i] != s[j]
  }

  /** The role-specific scale questions; positions other than the three
      named roles (the member position included) get none. */
  function Addendum(position: string): (keys: seq<string>)
    ensures |keys| <= 5
    ensures keys == [] <==> position !in {Staff, Leader, Executive}
  {
    if position == Staff then StaffKeys
    else if position == Leader then LeaderKeys
    else if position == Executive then ExecutiveKeys
    else []
  }

  /** The answer keys shown for a position, in the order the page asks them. */
  function Compose(position: string): (keys: seq<string>)
    ensures position == Unselected <==> keys == []
    ensures position != Unselected ==>
      && |keys| == |CommonKeys| + |Addendum(position)| + |EssayKeys|
      && keys[..9] == CommonKeys
      && keys[9..|keys| - 2] == Addendum(position)
      && keys[|keys| - 2..] == EssayKeys
  {
    if position == Unselected then []
    else CommonKeys + Addendum(position) + EssayKeys
  }

  /** No key is asked twice, whatever the position. */
  lemma ComposeDistinct(position: string)
    ensures Distinct(Compose(position))
  {
    if position != Unselected {
      var extra := Addendum(position);
      assert Compose(position) == CommonKeys + extra + EssayKeys;
      if extra == StaffKeys {
        StaffKeysDistinct();
      } else if extra == LeaderKeys {
        LeaderKeysDistinct();
      } else if extra == ExecutiveKeys {
        ExecutiveKeysDistinct();
      } else {
        assert CommonKeys + extra + EssayKeys == CommonKeys + EssayKeys;
        MemberKeysDistinct();
      }
    }
  }

  lemma MemberKeysDistinct()
    ensures Distinct(CommonKeys + EssayKeys)
  {
  }

  lemma StaffKeysDistinct()
    ensures Distinct(CommonKeys + StaffKeys + EssayKeys)
  {
  }

  lemma LeaderKeysDistinct()
    ensures Distinct(CommonKeys + LeaderKeys + EssayKeys)
  {
  }

  lemma ExecutiveKeysDistinct()
    ensures Distinct(CommonKeys + ExecutiveKeys + EssayKeys)
  {
  }

  lemma ComposeMember()
    ensures Compose(Member) == CommonKeys + EssayKeys
    ensures |Compose(Member)| == 11
  {
  }

  lemma ComposeStaff()
    ensures Compose(Staff) ==
      CommonKeys + ["Staff_D1", "Staff_D2", "Staff_D3", "Staff_E1", "Staff_E2"] + EssayKeys
    ensures |Compose(Staff)| == 16
  {
  }

  lemma ComposeLeader()
    ensures Compose(Leader) ==
      CommonKeys + ["리더_F1", "리더_F2", "리더_F3", "리더_G1", "리더_G2"] + EssayKeys
    ensures |Compose(Leader)| == 16
  {
  }

  lemma ComposeExecutive()
    ensures Compose(Executive) == CommonKeys + ["임원_H1", "임원_H2", "임원_H3"] + EssayKeys
    ensures |Compose(Executive)| == 14
  {
  }

  /** A position string outside the selectable list is not treated as
      unselected: it is asked what a member is asked. */
  lemma ComposeUnknown(position: string)
    requires position !in {Unselected, Member, Staff, Leader, Executive}
    ensures Compose(position) == Compose(Member)
    ensures |Compose(position)| == 11
  {
  }

  /** The scale keys of a composed questionnaire are everything but the two
      free-text keys. */
  predicate IsScaleKey(key: string) {
    key !in EssayKeys
  }

  /** The label a slider holds: the one picked, or the default if untouched. */
  function SliderLabel(picks: map<string, Level>, key: string): (shown: string)
    ensures shown in Options
    ensures key !in picks ==> shown == DefaultLabel
    ensures key in picks ==> shown == Options[picks[key]]
  {
    if key in picks then Options[picks[key]] else DefaultLabel
  }

  /** The answers the page collects for a position, given what the
      respondent did with each slider and text area. */
  function Collect(position: string, picks: map<string, Level>, texts: map<string, string>)
    : (ans: map<string, string>)
    ensures ans.Keys == set k | k in Compose(position)
    ensures position == Unselected ==> ans == map[]
    ensures forall k :: k in ans && IsScaleKey(k) ==> ans[k] in Options
    ensures forall k :: k in ans && IsScaleKey(k) && k !in picks ==> ans[k] == DefaultLabel
    ensures forall k :: k in ans && IsScaleKey(k) && k in picks ==> ans[k] == Options[picks[k]]
    ensures forall k :: k in ans && k in EssayKeys ==> ans[k] == (if k in texts then texts[k] else "")
  {
    map k | k in Compose(position) ::
      if IsScaleKey(k) then SliderLabel(picks, k)
      else if k in texts then texts[k] else ""
  }

  /** The free-text questions are always asked, after every scale question. */
  lemma EssaysLast(position: string)
    requires position != Unselected
    ensures Compose(position)[|Compose(position)| - 2..] == EssayKeys
    ensures forall i :: 0 <= i < |Compose(position)| - 2 ==> IsScaleKey(Compose(position)[i])
  {
    var keys := Compose(position);
    forall i | 0 <= i < |keys| - 2
      ensures IsScaleKey(keys[i])
    {
      ComposeDistinct(position);
      assert keys[i] != keys[|keys| - 2] && keys[i] != keys[|keys| - 1];
    }
  }

  datatype Option<T> = None | Some(value: T)

  function DigitValue(c: char): (d: nat)
    requires '0' <= c <= '9'
    ensures d <= 9
  {
    (c as int - '0' as int) as nat
  }

  /** The score of a scale label: its leading digit, when the label starts
      with a digit followed by a dot. */
  function Score(text: string): (r: Option<nat>)
    ensures r.Some? <==> |text| >= 2 && '0' <= text[0] <= '9' && text[1] == '.'
    ensures r.Some? ==> r.value <= 9 && text[0] == "0123456789"[r.value]
  {
    if |text| >= 2 && '0' <= text[0] <= '9' && text[1] == '.' then Some(DigitValue(text[0]))
    else None
  }

  /** Reading the scale from weakest to strongest gives the scores 1 to 5,
      and the default label scores 3. */
  lemma ScoreOfOptions()
    ensures forall i :: 0 <= i < |Options| ==> Score(Options[i]) == Some(i + 1)
    ensures Score(DefaultLabel) == Some(3)
  {
  }

  /** A slider's label scores one more than its position on the scale. */
  lemma ScoreOfSlider(picks: map<string, Level>, k: string)
    ensures Score(SliderLabel(picks, k)) == Some(if k in picks then picks[k] as nat + 1 else 3)
  {
    ScoreOfOptions();
  }

  /** Every scale answer the page collects scores between 1 and 5, the
      untouched ones 3. */
  lemma ScoreOfCollected(position: string, picks: map<string, Level>, texts: map<string, string>, k: string)
    requires k in Compose(position) && IsScaleKey(k)
    ensures k in Collect(position, picks, texts)
    ensures Score(Collect(position, picks, texts)[k]) == Some(if k in picks then picks[k] as nat + 1 else 3)
  {
    ScoreOfSlider(picks, k);
  }
}
