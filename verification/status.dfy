/** The onboarding stages and the persisted status record: the current
    stage and the chosen user name, kept in memory and written to disk by
    `Save`, so that a restarted process resumes at the last saved stage. */
module StatusStore {
  import opened Wrappers

  /** The stages, in the order the flow runs them; UiInit is terminal. */
  datatype Stage = Username | Lightup | Switch | Letters | WhiteRabbit | Love | Final | UiInit

  const Order: seq<Stage> := [Username, Lightup, Switch, Letters, WhiteRabbit, Love, Final, UiInit]

  /** Position of a stage in `Order`. */
  function Index(s: Stage): (i: nat)
    ensures i < |Order| && Order[i] == s
  {
    match s
    case Username => 0
    case Lightup => 1
    case Switch => 2
    case Letters => 3
    case WhiteRabbit => 4
    case Love => 5
    case Final => 6
    case UiInit => 7
  }

  /** The stage each handler schedules after its own. */
  function Next(s: Stage): (t: Stage)
    requires s != UiInit
    ensures Index(t) == Index(s) + 1
  {
    match s
    case Username => Lightup
    case Lightup => Switch
    case Switch => Letters
    case Letters => WhiteRabbit
    case WhiteRabbit => Love
    case Love => Final
    case Final => UiInit
  }

  /** The stage reached from `s` after `k` completed stages. */
  function Advance(s: Stage, k: nat): Stage
    requires Index(s) + k < |Order|
    decreases k
  {
    if k == 0 then s else Advance(Next(s), k - 1)
  }

  /** Completing stages one after another visits `Order` in sequence,
      skipping none, and from Username reaches UiInit after seven. */
  lemma {:induction false} AdvanceFollowsOrder(s: Stage, k: nat)
    requires Index(s) + k < |Order|
    ensures Advance(s, k) == Order[Index(s) + k]
    decreases k
  {
    if k > 0 {
      AdvanceFollowsOrder(Next(s), k - 1);
    }
  }

  /** The contents of the status file. */
  datatype Record = Record(stage: Stage, username: Option<string>)

  /** The onboarding status: what the running flow holds in memory, and the
      record last written to disk (None while no file exists). */
  class Status {
    var stage: Stage
    var username: Option<string>
    var persisted: Option<Record>

    ghost function Current(): Record
      reads this
    {
      Record(stage, username)
    }

    /** The status a fresh process starts from: the record on disk, or the
        first stage with no user name when there is no readable file. */
    constructor Load(file: Option<Record>)
      ensures persisted == file
      ensures Current() == if file.Some? then file.value else Record(Username, None)
    {
      if file.Some? {
        stage := file.value.stage;
        username := file.value.username;
      } else {
        stage := Username;
        username := None;
      }
      persisted := file;
    }

    /** `save`: the file now holds the in-memory status. */
    method Save()
      modifies this`persisted
      ensures persisted == Some(Current())
    {
      persisted := Some(Record(stage, username));
    }
  }
}
