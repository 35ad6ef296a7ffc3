/** The five pipeline stages, their database spelling and their order. */
module Stages {
  import opened Basics

  datatype Stage = Learning | Building | PreLoad | Evaluation | SkillManage

  function Rank(s: Stage): (r: nat)
    ensures r <= 4
  {
    match s
    case Learning => 0
    case Building => 1
    case PreLoad => 2
    case Evaluation => 3
    case SkillManage => 4
  }

  function NextStage(s: Stage): Option<Stage> {
    match s
    case Learning => Some(Building)
    case Building => Some(PreLoad)
    case PreLoad => Some(Evaluation)
    case Evaluation => Some(SkillManage)
    case SkillManage => None
  }

  function StageToStr(s: Stage): string {
    match s
    case Learning => "learning"
    case Building => "building"
    case PreLoad => "pre_load"
    case Evaluation => "evaluation"
    case SkillManage => "skill_manage"
  }

  function StrToStage(t: string): Option<Stage> {
    match t
    case "learning" => Some(Learning)
    case "building" => Some(Building)
    case "pre_load" => Some(PreLoad)
    case "evaluation" => Some(Evaluation)
    case "skill_manage" => Some(SkillManage)
    case _ => None
  }

  /** Parsing inverts printing and accepts nothing else, so two stages may be compared by
      their spelling (as the database does) or by value (as the machine below does). In
      particular the empty stage of a fresh subtask names no stage. */
  lemma SpellingIsFaithful(s: Stage, t: string)
    ensures StrToStage(t) == Some(s) <==> t == StageToStr(s)
    ensures StrToStage("") == None
    ensures t in {"learning", "building", "pre_load", "evaluation", "skill_manage"} <==> StrToStage(t).Some?
  {
    match s {
      case Learning => assert StageToStr(s) == "learning";
      case Building => assert StageToStr(s) == "building";
      case PreLoad => assert StageToStr(s) == "pre_load";
      case Evaluation => assert StageToStr(s) == "evaluation";
      case SkillManage => assert StageToStr(s) == "skill_manage";
    }
  }

  /** NextStage climbs the ranks one by one and stops exactly at the top. */
  lemma NextStageIsSuccessor(s: Stage, n: Stage)
    ensures NextStage(s) == Some(n) <==> Rank(n) == Rank(s) + 1
    ensures NextStage(s).None? <==> forall x: Stage :: Rank(x) <= Rank(s)
  {
    assert Rank(SkillManage) == 4;
  }
}
