/** How the offline encoder (accumulating) and the online encoder (overwriting) relate. */
module EncoderComparison {
  import opened Wrappers
  import opened SkillRecords
  import Constants
  import OfflineEncoder
  import Predict

  predicate AllAccepted(skills: seq<SkillDict>) {
    forall i | 0 <= i < |skills| :: Predict.RecordFault(skills[i]).None?
  }

  predicate DistinctNames(skills: seq<SkillDict>) {
    forall i, j | 0 <= i < j < |skills| :: skills[i].skillName != skills[j].skillName
  }

  lemma {:induction false} NoRecordNoTotal(skills: seq<SkillDict>, category: string)
    requires forall i | 0 <= i < |skills| :: skills[i].skillName != Some(category)
    ensures OfflineEncoder.SlotTotal(skills, category) == 0.0
  {
    if skills != [] {
      var n := |skills| - 1;
      assert forall i | 0 <= i < n :: skills[..n][i] == skills[i];
      NoRecordNoTotal(skills[..n], category);
    }
  }

  /** An accepted record weighs the same in both encoders. */
  lemma ContributionIsWeighted(sk: SkillDict)
    requires Predict.RecordFault(sk).None?
    ensures OfflineEncoder.Contribution(sk) == Predict.Weighted(sk)
  {
    OfflineEncoder.GeneratorCopiesMatchConstants();
  }

  /** With one record per name, accumulating and overwriting agree slot by slot. */
  lemma {:induction false} SlotsAgree(skills: seq<SkillDict>, category: string)
    requires AllAccepted(skills) && DistinctNames(skills)
    ensures OfflineEncoder.SlotTotal(skills, category) == Predict.LastWrite(skills, category)
  {
    if skills != [] {
      var n := |skills| - 1;
      var prefix := skills[..n];
      assert forall i | 0 <= i < n :: prefix[i] == skills[i];
      SlotsAgree(prefix, category);
      if skills[n].skillName == Some(category) {
        NoRecordNoTotal(prefix, category);
        ContributionIsWeighted(skills[n]);
      }
    }
  }

  /** For accepted records with distinct names the two encoders produce the same vector. */
  lemma EncodersAgreeOnDistinctNames(skills: seq<SkillDict>)
    requires AllAccepted(skills) && DistinctNames(skills)
    ensures Predict.OnlineVector(skills) == Success(OfflineEncoder.SkillVector(skills))
  {
    Predict.OnlineVectorSlots(skills);
    OfflineEncoder.GeneratorCopiesMatchConstants();
    forall c | 0 <= c < Constants.NumCategories
      ensures Predict.OnlineVector(skills).value[c] == OfflineEncoder.SkillVector(skills)[c]
    {
      SlotsAgree(skills, Constants.SkillCategories[c]);
    }
    assert Predict.OnlineVector(skills).value == OfflineEncoder.SkillVector(skills);
  }

  /** Two identical Python/Professional/24 records: the offline slot holds 144, the online 72. */
  lemma RepeatedCategoryDiffers()
    ensures var sk := SkillDict(Some("Python"), Some("Professional"), Some(24));
      && OfflineEncoder.SkillVector([sk, sk])[0] == 144.0
      && Predict.OnlineVector([sk, sk]).Success?
      && Predict.OnlineVector([sk, sk]).value[0] == 72.0
  {
    var sk := SkillDict(Some("Python"), Some("Professional"), Some(24));
    OfflineEncoder.RepeatsAccumulate(sk);
    Constants.Skill2IdxInvertsCategories();
    assert Predict.RecordFault(sk).None?;
    Predict.OnlineVectorSlots([sk, sk]);
  }
}
