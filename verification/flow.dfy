/** The stage handlers of the text onboarding flow. Each handler does its
    stage's work, then writes its fixed successor stage into the status and
    saves it. Lines typed at the terminal are an input sequence; running out
    of lines is the end-of-input error the prompt raises. Animations, text
    output and program handoffs have no state here. */
module Flow {
  import opened Wrappers
  import opened User
  import opened StatusStore

  /** Per-run options: bypass the interactive screens, and an optional
      preset user name for the headless path. */
  datatype FlowParams = FlowParams(skip: bool, user: Option<string>)

  /** Why a stage handler stopped without advancing. */
  datatype StageError = Account(reason: UserError) | InputEnded

  const DefaultName: string := "kano"
  const MaxNameLength: nat := 25
  const Secret: string := "kano"

  /** The name the headless path starts from. */
  function PresetName(params: FlowParams): string
  {
    if params.user.Some? then params.user.value else DefaultName
  }

  // ---------------------------------------------------------------------
  // Name entry

  /** The characters a `\s` class matches in a byte string. */
  predicate IsSpace(c: char)
  {
    c == ' ' || c == '\t' || c == '\n' || c == '\r' || c == '\U{000B}' || c == '\U{000C}'
  }

  predicate NoSpace(s: string)
  {
    forall i :: 0 <= i < |s| ==> !IsSpace(s[i])
  }

  /** The typed line with all whitespace deleted, leading, trailing and
      inner alike. */
  function StripSpaces(s: string): (r: string)
    ensures NoSpace(r)
    ensures NoSpace(s) ==> r == s
    ensures |r| <= |s|
  {
    if |s| == 0 then []
    else if IsSpace(s[0]) then StripSpaces(s[1..])
    else [s[0]] + StripSpaces(s[1..])
  }

  /** Deleting whitespace works piece by piece. */
  lemma {:induction false} StripSpacesConcat(a: string, b: string)
    ensures StripSpaces(a + b) == StripSpaces(a) + StripSpaces(b)
  {
    if |a| > 0 {
      assert (a + b)[1..] == a[1..] + b;
      StripSpacesConcat(a[1..], b);
    } else {
      assert a + b == b;
    }
  }

  /** A single whitespace character is deleted; with `StripSpacesConcat`
      this fixes the result for every string. */
  lemma SpaceDeleted(c: char)
    requires IsSpace(c)
    ensures StripSpaces([c]) == []
  {
  }

  /** A space between two words joins them: "Mary Ann" becomes "MaryAnn". */
  lemma InnerSpaceDeleted(a: string, b: string)
    requires NoSpace(a) && NoSpace(b)
    ensures StripSpaces(a + " " + b) == a + b
  {
    StripSpacesConcat(a + " ", b);
    StripSpacesConcat(a, " ");
    SpaceDeleted(' ');
    assert StripSpaces(a + " ") == a;
  }

  predicate IsAlnum(c: char)
  {
    ('a' <= c <= 'z') || ('A' <= c <= 'Z') || ('0' <= c <= '9')
  }

  predicate AllAlnum(s: string)
  {
    forall i :: 0 <= i < |s| ==> IsAlnum(s[i])
  }

  /** `re.match("^[a-zA-Z0-9]+$", s)`: one or more letters or digits up to
      the end of the string, where `$` also accepts a single final newline. */
  function MatchesWord(s: string): (b: bool)
    ensures NoSpace(s) ==> (b <==> |s| > 0 && AllAlnum(s))
  {
    (|s| > 0 && AllAlnum(s)) ||
    (|s| > 1 && s[|s| - 1] == '\n' && AllAlnum(s[..|s| - 1]))
  }

  /** The names the prompt accepts. */
  ghost predicate ValidUsername(db: seq<Passwd>, name: string)
  {
    0 < |name| <= MaxNameLength && AllAlnum(name) && !UserExists(db, name)
  }

  /** The answer to one typed name, by the first check it fails. */
  datatype Verdict = Empty | NotOneWord | Taken | TooLong | Accepted

  /** The checks of the name prompt, in their order: empty, not a single
      alphanumeric word, already an account, longer than 25. */
  function Judge(db: seq<Passwd>, name: string): (v: Verdict)
    ensures v == Empty <==> |name| == 0
    ensures NoSpace(name) ==> (v == NotOneWord <==> |name| > 0 && !AllAlnum(name))
    ensures NoSpace(name) ==>
      (v == Taken <==> |name| > 0 && AllAlnum(name) && name in Names(db))
    ensures NoSpace(name) ==>
      (v == TooLong <==> AllAlnum(name) && name !in Names(db) && |name| > MaxNameLength)
    ensures NoSpace(name) ==> (v == Accepted <==> ValidUsername(db, name))
    ensures v == Accepted ==> !UserExists(db, name) && 0 < |name| <= MaxNameLength
  {
    if |name| == 0 then Empty
    else if !MatchesWord(name) then NotOneWord
    else if UserExists(db, name) then Taken
    else if |name| > MaxNameLength then TooLong
    else Accepted
  }

  /** Line `k` is the first of `inputs` whose name the prompt accepts. */
  ghost predicate FirstAccepted(db: seq<Passwd>, inputs: seq<string>, k: nat)
  {
    k < |inputs| && Judge(db, StripSpaces(inputs[k])) == Accepted &&
    forall j :: 0 <= j < k ==> Judge(db, StripSpaces(inputs[j])) != Accepted
  }

  /** `_get_username`: read lines until one names a valid new user; every
      rejected line prompts again. `consumed` counts the lines read; None
      means the input ended first. */
  method GetUsername(db: seq<Passwd>, inputs: seq<string>) returns (name: Option<string>, consumed: nat)
    ensures consumed <= |inputs|
    ensures name.Some? ==>
      (0 < consumed && FirstAccepted(db, inputs, consumed - 1) &&
       name.value == StripSpaces(inputs[consumed - 1]) && ValidUsername(db, name.value))
    ensures name.None? ==>
      (consumed == |inputs| &&
       forall j :: 0 <= j < |inputs| ==> Judge(db, StripSpaces(inputs[j])) != Accepted)
  {
    consumed := 0;
    while consumed < |inputs|
      invariant consumed <= |inputs|
      invariant forall j :: 0 <= j < consumed ==> Judge(db, StripSpaces(inputs[j])) != Accepted
    {
      var username := StripSpaces(inputs[consumed]);
      consumed := consumed + 1;
      if Judge(db, username) == Accepted {
        return Some(username), consumed;
      }
    }
    name := None;
  }

  // ---------------------------------------------------------------------
  // Password puzzle

  /** `str.lower` on one ASCII character: capitals become their small
      letter, everything else is kept. */
  function LowerChar(c: char): (r: char)
    ensures !('A' <= r <= 'Z')
    ensures r == c <==> !('A' <= c <= 'Z')
  {
    if 'A' <= c <= 'Z' then (c as int + 32) as char else c
  }

  /** The characters that lower-case to the letter `l`: itself and its capital. */
  lemma LowerCharIs(c: char, l: char)
    requires 'a' <= l <= 'z'
    ensures LowerChar(c) == l <==> c == l || c as int == l as int - 32
  {
  }

  /** `str.lower` on ASCII text. */
  function ToLower(s: string): (r: string)
    ensures |r| == |s|
    ensures forall i :: 0 <= i < |r| ==> !('A' <= r[i] <= 'Z')
    ensures forall i :: 0 <= i < |s| && !('A' <= s[i] <= 'Z') ==> r[i] == s[i]
    ensures forall i :: 0 <= i < |s| && 'A' <= s[i] <= 'Z' ==> r[i] as int == s[i] as int + 32
  {
    seq(|s|, i requires 0 <= i < |s| => LowerChar(s[i]))
  }

  /** The puzzle accepts "kano" in any mix of upper and lower case, and
      nothing else. */
  lemma SecretAnyCase(s: string)
    ensures ToLower(s) == Secret <==>
      |s| == 4 && (s[0] == 'k' || s[0] == 'K') && (s[1] == 'a' || s[1] == 'A') &&
      (s[2] == 'n' || s[2] == 'N') && (s[3] == 'o' || s[3] == 'O')
  {
    var l := ToLower(s);
    assert |Secret| == 4 && Secret[0] == 'k' && Secret[1] == 'a' && Secret[2] == 'n' && Secret[3] == 'o';
    if |s| == 4 {
      assert l == Secret <==> l[0] == 'k' && l[1] == 'a' && l[2] == 'n' && l[3] == 'o';
      assert l[0] == 'k' <==> s[0] == 'k' || s[0] == 'K' by { LowerCharIs(s[0], 'k'); }
      assert l[1] == 'a' <==> s[1] == 'a' || s[1] == 'A' by { LowerCharIs(s[1], 'a'); }
      assert l[2] == 'n' <==> s[2] == 'n' || s[2] == 'N' by { LowerCharIs(s[2], 'n'); }
      assert l[3] == 'o' <==> s[3] == 'o' || s[3] == 'O' by { LowerCharIs(s[3], 'o'); }
    } else {
      assert |l| != |Secret|;
    }
  }

  /** The letters-stage loop: read lines until one lower-cases to the
      secret; the index of that line, or None when the input ends first. */
  method AwaitSecret(inputs: seq<string>) returns (k: Option<nat>)
    ensures k.Some? ==>
      (k.value < |inputs| && ToLower(inputs[k.value]) == Secret &&
       forall j :: 0 <= j < k.value ==> ToLower(inputs[j]) != Secret)
    ensures k.None? ==> forall j :: 0 <= j < |inputs| ==> ToLower(inputs[j]) != Secret
  {
    var i := 0;
    while i < |inputs|
      invariant i <= |inputs|
      invariant forall j :: 0 <= j < i ==> ToLower(inputs[j]) != Secret
    {
      if ToLower(inputs[i]) == Secret {
        return Some(i);
      }
      i := i + 1;
    }
    k := None;
  }

  // ---------------------------------------------------------------------
  // Stage handlers

  /** The user name as the terminal prints it (Python prints None as "None"). */
  function NameText(u: Option<string>): string
  {
    if u.Some? then u.value else "None"
  }

  function RabbitHole(u: Option<string>): string
  {
    Home(NameText(u)) + "/rabbithole"
  }

  /** `do_username_stage`: pick a name (headless: the preset or "kano" made
      unique; interactive: the first valid typed name), create the account,
      and only then record the name, advance to Lightup and save. `chosen`
      is the name passed to account creation. */
  method DoUsernameStage(status: Status, host: Host, params: FlowParams, input: seq<string>, cmd: Commands)
    returns (err: Option<StageError>, ghost chosen: Option<string>)
    requires host.Valid()
    modifies status, host
    ensures host.Valid() && host.services == old(host.services)
    ensures params.skip ==> chosen.Some? && ResolvesUnique(old(host.passwd), PresetName(params), chosen.value)
    ensures !params.skip && chosen.Some? ==>
      (ValidUsername(old(host.passwd), chosen.value) &&
       exists k: nat :: FirstAccepted(old(host.passwd), input, k) && chosen.value == StripSpaces(input[k]))
    ensures !params.skip && chosen.None? ==>
      (forall j :: 0 <= j < |input| ==> Judge(old(host.passwd), StripSpaces(input[j])) != Accepted)
    ensures chosen.None? ==> err == Some(InputEnded) && host.State() == old(host.State())
    ensures chosen.Some? ==> host.State() == Created(old(host.State()), chosen.value, cmd).state
    ensures chosen.Some? && Created(old(host.State()), chosen.value, cmd).err.Some? ==>
      (err == Some(Account(Created(old(host.State()), chosen.value, cmd).err.value)))
    ensures chosen.Some? && Created(old(host.State()), chosen.value, cmd).err.None? ==> err.None?
    ensures err.Some? ==> status.Current() == old(status.Current()) && status.persisted == old(status.persisted)
    ensures err.None? ==>
      (chosen.Some? && Created(old(host.State()), chosen.value, cmd).err.None? &&
       status.stage == Next(Username) && status.username == chosen &&
       status.persisted == Some(status.Current()))
  {
    var username: string;
    if params.skip {
      username := MakeUsernameUnique(host.passwd, PresetName(params));
    } else {
      var name, consumed := GetUsername(host.passwd, input);
      if name.None? {
        return Some(InputEnded), None;
      }
      username := name.value;
    }
    chosen := Some(username);
    var e := host.CreateUser(username, cmd);
    if e.Some? {
      return Some(Account(e.value)), chosen;
    }
    // Setting the hostname to the new name happens here; it is outside this model.
    status.stage := Lightup;
    status.username := Some(username);
    status.Save();
    err := None;
  }

  /** `do_lightup_stage`: interactively, wait for one line (Enter); then
      advance to Switch and save. */
  method DoLightupStage(status: Status, params: FlowParams, input: seq<string>) returns (err: Option<StageError>)
    modifies status
    ensures err.Some? <==> !params.skip && |input| == 0
    ensures err.Some? ==>
      (err == Some(InputEnded) &&
       status.Current() == old(status.Current()) && status.persisted == old(status.persisted))
    ensures err.None? ==>
      (status.stage == Next(Lightup) && status.username == old(status.username) &&
       status.persisted == Some(status.Current()))
  {
    if !params.skip && |input| == 0 {
      return Some(InputEnded);
    }
    status.stage := Switch;
    status.Save();
    err := None;
  }

  /** `do_switch_stage`: interactively, play the binary animation, whose
      environment error (`animationRaises`) is caught; advance to Letters
      and save in every case. */
  method DoSwitchStage(status: Status, params: FlowParams, animationRaises: bool)
    modifies status
    ensures status.stage == Next(Switch) && status.username == old(status.username)
    ensures status.persisted == Some(status.Current())
  {
    // Interactively the animation runs here; when it raises
    // (`animationRaises`), the error is swallowed and the stage still advances.
    status.stage := Letters;
    status.Save();
  }

  /** `do_letters_stage`: interactively, read lines until one lower-cases
      to "kano"; then advance to WhiteRabbit and save. */
  method DoLettersStage(status: Status, params: FlowParams, input: seq<string>) returns (err: Option<StageError>)
    modifies status
    ensures err.Some? <==> !params.skip && forall j :: 0 <= j < |input| ==> ToLower(input[j]) != Secret
    ensures err.Some? ==>
      (err == Some(InputEnded) &&
       status.Current() == old(status.Current()) && status.persisted == old(status.persisted))
    ensures err.None? ==>
      (status.stage == Next(Letters) && status.username == old(status.username) &&
       status.persisted == Some(status.Current()))
  {
    if !params.skip {
      var k := AwaitSecret(input);
      if k.None? {
        return Some(InputEnded);
      }
    }
    status.stage := WhiteRabbit;
    status.Save();
    err := None;
  }

  /** `do_white_rabbit_stage`: interactively, create the rabbithole
      directory in the user's home, hand the terminal to a subshell, and
      remove the directory when it returns; advance to Love and save.
      `presentDuringShell` tells whether the directory existed while the
      subshell ran. */
  method DoWhiteRabbitStage(status: Status, host: Host, params: FlowParams)
    returns (ghost presentDuringShell: bool)
    modifies status, host`dirs
    ensures !params.skip ==>
      (presentDuringShell && host.dirs == old(host.dirs) - {RabbitHole(old(status.username))})
    ensures params.skip ==> host.dirs == old(host.dirs)
    ensures status.stage == Next(WhiteRabbit) && status.username == old(status.username)
    ensures status.persisted == Some(status.Current())
  {
    presentDuringShell := false;
    if !params.skip {
      var rabbithole := RabbitHole(status.username);
      host.dirs := host.dirs + {rabbithole};
      presentDuringShell := rabbithole in host.dirs;
      // the subshell runs as the new user here; its exit status is ignored
      host.dirs := host.dirs - {rabbithole};
    }
    status.stage := Love;
    status.Save();
  }

  /** `do_love_stage`: interactively, hand over to the game; advance to
      Final and save. */
  method DoLoveStage(status: Status, params: FlowParams)
    modifies status
    ensures status.stage == Next(Love) && status.username == old(status.username)
    ensures status.persisted == Some(status.Current())
  {
    status.stage := Final;
    status.Save();
  }

  /** `do_final_stage`: advance to UiInit, save, and only then start the
      display manager. `diskAtStart` is the status file's content at the
      moment the service is started. */
  method DoFinalStage(status: Status, host: Host, params: FlowParams)
    returns (ghost diskAtStart: Option<Record>)
    modifies status, host`services
    ensures diskAtStart == Some(Record(Next(Final), old(status.username)))
    ensures host.services == old(host.services) + ["lightdm"]
    ensures status.stage == Next(Final) && status.username == old(status.username)
    ensures status.persisted == Some(status.Current())
  {
    status.stage := UiInit;
    status.Save();
    diskAtStart := status.persisted;
    host.services := host.services + ["lightdm"];
  }

  // ---------------------------------------------------------------------
  // A headless first boot

  /** A headless first boot with the preset name "kano" on a device that
      already has a `kano` account, every command succeeding: the account
      `kano1` is created, the saved status is Lightup with that name, and a
      restarted process resumes at Lightup. */
  method HeadlessFirstBoot() returns (accounts: seq<Passwd>, saved: Option<Record>, resumed: Stage)
    ensures UserExists(accounts, "kano1") && UserExists(accounts, "kano")
    ensures saved == Some(Record(Lightup, Some("kano1")))
    ensures resumed == Lightup
  {
    var host := new Host([Passwd("kano", 1000)], [], {"/home/kano"}, map[]);
    var status := new Status.Load(None);
    assert status.stage == Username;
    var allOk := Commands(true, true, true, true, true);
    ghost var before := host.State();
    var err, chosen := DoUsernameStage(status, host, FlowParams(true, Some("kano")), [], allOk);
    KanoResolvesToKano1(chosen.value);
    OnlyAccount(Passwd("kano", 1000), "kano1");
    assert Created(before, "kano1", allOk).err.None?;
    CreateSucceeds(before, "kano1", allOk);
    NamesAppend(before.passwd, Passwd("kano1", NextUid(before.passwd)));
    accounts := host.passwd;
    saved := status.persisted;
    var restarted := new Status.Load(saved);
    resumed := restarted.stage;
  }
}
