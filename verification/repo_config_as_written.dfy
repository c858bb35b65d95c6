/**
 `RepoConfig#validate` exactly as the code has it, kept beside the intended
 pass (RepoConfigs.Validate) to exhibit where the two part ways.

 Two calls that come before `File.extname` in the loop are assumed to
 return normally: `debugger`, which with a debugger gem such as byebug
 loaded opens an interactive session and without one raises NameError,
 is modelled as doing nothing; `commit.file_content(path)` is a lookup in
 the commit's files, also for a nil path, where it is assumed to return.
 */
module RepoConfigAsWritten {
  import opened Values
  import opened Formats
  import opened RepoConfigs

  /**
   One iteration of `validate_style_guide_configs` as written; None when it
   completes. `File.extname` raises TypeError for a pointer that is not a
   string -- nil for every guide without `config_file`. When the pointed-to
   file has content, the argument `add_config_error(style_guide)` is
   evaluated before any parser runs, and its `errors < message` raises
   NoMethodError because an Array has no `<`.
   */
  function GuideStepAsWritten(rc: RepoConfig, g: Guide): (r: Option<Fault>)
    ensures !Truthy(Lookup(HoundConfig(rc), SnakeName(g))) ==> r == Some(TypeError)
    ensures forall p | ConfigPathFor(rc, g) == Ok(Str(p)) ::
      r == if Present(FileContent(rc, p)) then Some(NoMethodError) else None
  {
    match ConfigPathFor(rc, g)
    case Raise(f) => Some(f)
    case Ok(path) =>
      if !path.Str? then Some(TypeError)
      else if Present(FileContent(rc, path.s)) then Some(NoMethodError)
      else None
  }

  /** The loop over the guides: the first fault ends it. */
  function StepsAsWritten(rc: RepoConfig, gs: seq<Guide>): (r: Option<Fault>)
    ensures r.None? <==> forall i | 0 <= i < |gs| :: GuideStepAsWritten(rc, gs[i]).None?
  {
    if gs == [] then None
    else
      match GuideStepAsWritten(rc, gs[0])
      case Some(f) => Some(f)
      case None =>
        var r := StepsAsWritten(rc, gs[1..]);
        assert forall i | 1 <= i < |gs| :: gs[1..][i - 1] == gs[i];
        r
  }

  /**
   `validate` as written. It can complete only when every guide points to
   a string path whose file is blank or absent, and then the cleared
   `errors` stays empty: no error is ever recorded.
   */
  function ValidateAsWritten(rc: RepoConfig, errorsBefore: seq<string>): (r: Result<seq<string>>)
    ensures r.Ok? ==> r.value == []
    ensures r.Ok? <==> forall g | g in StyleGuides ::
      && ConfigPathFor(rc, g).Ok? && ConfigPathFor(rc, g).value.Str?
      && !Present(FileContent(rc, ConfigPathFor(rc, g).value.s))
  {
    var steps := StepsAsWritten(rc, StyleGuides);
    assert forall g | g in StyleGuides :: exists i | 0 <= i < |StyleGuides| :: StyleGuides[i] == g;
    match steps
    case Some(f) => Raise(f)
    case None => Ok([])
  }

  lemma {:induction false} StepFaultStopsLoop(rc: RepoConfig, gs: seq<Guide>, g: Guide)
    requires g in gs && GuideStepAsWritten(rc, g).Some?
    ensures StepsAsWritten(rc, gs).Some?
  {
    var i :| 0 <= i < |gs| && gs[i] == g;
  }

  /**
   As written, a guide with no block, or whose block has no `config_file`,
   makes `validate` raise, where the intended pass skips that guide.
   */
  lemma GuideWithoutPointerRaisesAsWritten(rc: RepoConfig, errorsBefore: seq<string>, g: Guide)
    requires !Truthy(Lookup(HoundConfig(rc), SnakeName(g)))
      || (Lookup(HoundConfig(rc), SnakeName(g)).Obj?
          && !Truthy(Lookup(Lookup(HoundConfig(rc), SnakeName(g)).fields, "config_file")))
    ensures ValidateAsWritten(rc, errorsBefore).Raise?
    ensures GuideConfigInvalid(rc, g) == Ok(false)
  {
    assert GuideStepAsWritten(rc, g) == Some(TypeError);
    assert g in StyleGuides;
    StepFaultStopsLoop(rc, StyleGuides, g);
  }

  /**
   As written, a guide whose configuration file is present and well formed
   makes `validate` raise, where the intended pass records nothing for it.
   */
  lemma WellFormedFileRaisesAsWritten(rc: RepoConfig, errorsBefore: seq<string>, g: Guide, path: string, v: Value)
    requires ConfigPathFor(rc, g) == Ok(Str(path))
    requires Present(FileContent(rc, path)) && FormatOf(path).Some?
    requires rc.parse(FormatOf(path).value, FileContent(rc, path).value) == Some(v)
    ensures ValidateAsWritten(rc, errorsBefore).Raise?
    ensures GuideConfigInvalid(rc, g) == Ok(false)
  {
    assert GuideStepAsWritten(rc, g) == Some(NoMethodError);
    assert g in StyleGuides;
    StepFaultStopsLoop(rc, StyleGuides, g);
  }

  /**
   The concrete witness: a commit with no files at all. As written,
   `validate` raises TypeError on the first guide; the intended pass
   reports no errors.
   */
  lemma EmptyCommitRaisesAsWritten(rc: RepoConfig, invalidConfig: string -> string, errorsBefore: seq<string>)
    requires rc.files == map[]
    ensures ValidateAsWritten(rc, errorsBefore) == Raise(TypeError)
    ensures Validate(rc, invalidConfig, errorsBefore) == Ok([])
  {
    assert HoundConfig(rc) == map[];
    assert GuideStepAsWritten(rc, Ruby) == Some(TypeError);
    forall h | h in StyleGuides
      ensures GuideConfigInvalid(rc, h) == Ok(false)
    {
      assert Lookup(HoundConfig(rc), SnakeName(h)) == Null;
    }
    AllValidGuidesNoErrors(rc, invalidConfig, StyleGuides);
  }
}
