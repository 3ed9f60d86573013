/** The acceptance gate: the lookups of `Candidate` and `Skills` and the join
    of skill names that run before a row is built. Their results are never
    used, so all that matters is whether evaluating them raises. Here
    `None` stands for "raised". */
module Gate {
  import opened Options
  import opened Seqs
  import opened Dicts
  import opened JsonValues

  /** The two values the gate computes and then drops. */
  datatype Unused = Unused(candidate: Json, skills: string)

  /** `obj.get(key, default)`: only a dict has `get`; anything else raises
      AttributeError. */
  function PyGet(obj: Json, key: string, default: Json): (r: Option<Json>)
    ensures r.Some? <==> obj.Obj?
    ensures obj.Obj? && key !in Keys(obj.fields) ==> r == Some(default)
    ensures obj.Obj? && key in Keys(obj.fields) ==> r == Get(obj.fields, key)
  {
    match obj
    case Obj(fields) => Some(Get(fields, key).GetOr(default))
    case _ => None
  }

  /** What `for s in v` visits: a list's items, a dict's keys (as strings, in
      dict order), a string's characters (as one-character strings). Null,
      booleans and numbers are not iterable and raise TypeError. */
  function PyIter(v: Json): (r: Option<seq<Json>>)
    ensures r.Some? <==> v.Arr? || v.Obj? || v.Str?
    ensures v.Arr? ==> r == Some(v.items)
    ensures v.Obj? ==> (|r.value| == 0 <==> |v.fields| == 0)
    ensures v.Obj? ==> |r.value| == |Keys(DictOf(v.fields))|
    ensures v.Obj? ==> forall i :: 0 <= i < |r.value| ==> r.value[i] == Str(Keys(DictOf(v.fields))[i])
    ensures v.Str? ==> |r.value| == |v.s| && forall i :: 0 <= i < |r.value| ==> r.value[i] == Str([v.s[i]])
  {
    match v
    case Arr(items) => Some(items)
    case Obj(fields) => Some(KeyStrings(Keys(DictOf(fields))))
    case Str(s) => Some(CharStrings(s))
    case _ => None
  }

  /** Each key as a JSON string, in order. */
  function KeyStrings(keys: seq<string>): (r: seq<Json>)
    ensures |r| == |keys|
    ensures forall i :: 0 <= i < |r| ==> r[i] == Str(keys[i])
  {
    seq(|keys|, i requires 0 <= i < |keys| => Str(keys[i]))
  }

  /** Each character as a one-character JSON string, in order. */
  function CharStrings(s: string): (r: seq<Json>)
    ensures |r| == |s|
    ensures forall i :: 0 <= i < |r| ==> r[i] == Str([s[i]])
  {
    seq(|s|, i requires 0 <= i < |s| => Str([s[i]]))
  }

  /** `s.get("SkillName", "")` for one skill, as `", ".join` needs it: raises
      when `s` is not a dict (AttributeError) or the name is not a string
      (TypeError in the join). */
  function SkillName(s: Json): Option<string>
  {
    match PyGet(s, "SkillName", Str(""))
    case Some(Str(name)) => Some(name)
    case _ => None
  }

  /** The skill names of all skills, or None if any of them raises. */
  function SkillNames(skills: seq<Json>): (r: Option<seq<string>>)
    ensures r.Some? <==> forall i :: 0 <= i < |skills| ==> SkillName(skills[i]).Some?
    ensures r.Some? ==> |r.value| == |skills|
  {
    if |skills| == 0 then Some([])
    else
      var init := skills[..|skills| - 1];
      assert forall i :: 0 <= i < |init| ==> init[i] == skills[i];
      match (SkillNames(init), SkillName(skills[|skills| - 1]))
      case (Some(names), Some(name)) => Some(names + [name])
      case _ => None
  }

  /** Lines 86-88 evaluated on the `json.loads` result (None when the
      response did not parse): the unused values, or None when a step raises. */
  function EvalGate(parsed: Option<Json>): Option<Unused>
  {
    match parsed
    case None => None
    case Some(p) =>
      match PyGet(p, "Candidate", Obj([]))
      case None => None
      case Some(candidate) =>
        match PyGet(p, "Skills", Arr([]))
        case None => None
        case Some(skillsValue) =>
          match PyIter(skillsValue)
          case None => None
          case Some(skills) =>
            match SkillNames(skills)
            case None => None
            case Some(names) => Some(Unused(candidate, Join(names, ", ")))
  }

  /** A skill entry the gate lets through: a dict whose SkillName is absent
      or a string. */
  predicate SkillEntryOk(s: Json)
  {
    && s.Obj?
    && var name := Get(s.fields, "SkillName");
       name.None? || name.value.Str?
  }

  /** A Skills value the gate lets through: a list of acceptable entries, an
      empty object or an empty string (the only iterables whose items are
      never asked for `get`). */
  predicate SkillsOk(v: Json)
  {
    || (v.Arr? && forall i :: 0 <= i < |v.items| ==> SkillEntryOk(v.items[i]))
    || v == Obj([])
    || v == Str("")
  }

  /** The responses that yield a row: they parse, to an object, whose Skills
      entry is absent or acceptable. */
  predicate Accepted(parsed: Option<Json>)
  {
    && parsed.Some?
    && parsed.value.Obj?
    && var skills := Get(parsed.value.fields, "Skills");
       skills.None? || SkillsOk(skills.value)
  }

  lemma {:induction false} SkillNameOk(s: Json)
    ensures SkillName(s).Some? <==> SkillEntryOk(s)
  {
  }

  lemma {:induction false} IterationOk(v: Json)
    ensures (PyIter(v).Some? && SkillNames(PyIter(v).value).Some?) <==> SkillsOk(v)
  {
    match v
    case Arr(items) =>
      forall i | 0 <= i < |items|
        ensures SkillName(items[i]).Some? <==> SkillEntryOk(items[i])
      {
        SkillNameOk(items[i]);
      }
    case Obj(fields) =>
      var skills := PyIter(v).value;
      if |fields| > 0 {
        assert skills[0].Str?;
        assert SkillName(skills[0]).None?;
      }
    case Str(s) =>
      var skills := PyIter(v).value;
      if |s| > 0 {
        assert skills[0] == Str([s[0]]);
        assert SkillName(skills[0]).None?;
      }
    case _ =>
  }

  /** The gate raises on exactly the responses that are not Accepted: a
      response that does not parse, a top level that is not an object, a
      Skills entry that is null, a boolean, a number, a non-empty string or
      object, or a list holding a non-object or a non-string SkillName. */
  lemma {:induction false} GateAcceptsExactly(parsed: Option<Json>)
    ensures EvalGate(parsed).Some? <==> Accepted(parsed)
  {
    if parsed.Some? && parsed.value.Obj? {
      var fields := parsed.value.fields;
      var skillsValue := PyGet(parsed.value, "Skills", Arr([])).value;
      IterationOk(skillsValue);
      if "Skills" in Keys(fields) {
        assert skillsValue == Get(fields, "Skills").value;
      } else {
        assert SkillsOk(skillsValue);
      }
    }
  }

  /** Replies the gate turns away: no parse, a top-level list or string, and
      Skills that is null, a number, a non-empty string, a list holding a
      string, or a list holding a non-string SkillName. */
  lemma {:induction false} GateRejectsExamples()
    ensures EvalGate(None).None?
    ensures EvalGate(Some(Arr([]))).None?
    ensures EvalGate(Some(Str("{}"))).None?
    ensures EvalGate(Some(Obj([("Skills", Null)]))).None?
    ensures EvalGate(Some(Obj([("Skills", Int(3))]))).None?
    ensures EvalGate(Some(Obj([("Skills", Str("Go"))]))).None?
    ensures EvalGate(Some(Obj([("Skills", Arr([Str("Go")]))]))).None?
    ensures EvalGate(Some(Obj([("Skills", Arr([Obj([("SkillName", Float(1.0))])]))]))).None?
  {
    GateAcceptsExactly(Some(Arr([])));
    GateAcceptsExactly(Some(Str("{}")));
    var replies := [Null, Int(3), Str("Go"), Arr([Str("Go")]), Arr([Obj([("SkillName", Float(1.0))])])];
    forall i | 0 <= i < |replies|
      ensures EvalGate(Some(Obj([("Skills", replies[i])]))).None?
    {
      var fields := [("Skills", replies[i])];
      assert Keys(fields) == ["Skills"];
      assert Get(fields, "Skills") == Some(replies[i]);
      if i == 4 {
        var bad := Obj([("SkillName", Float(1.0))]);
        assert Keys(bad.fields) == ["SkillName"];
        assert !SkillEntryOk(bad);
      }
      GateAcceptsExactly(Some(Obj(fields)));
    }
    assert replies[0] == Null && replies[1] == Int(3) && replies[2] == Str("Go");
    assert replies[3] == Arr([Str("Go")]) && replies[4] == Arr([Obj([("SkillName", Float(1.0))])]);
  }

  /** A reply the gate lets through: a list of skills, one with a string
      name and one with no name. */
  lemma {:induction false} GateAcceptsExamples()
    ensures EvalGate(Some(Obj([("Skills", Arr([Obj([("SkillName", Str("Go"))]), Obj([])]))]))).Some?
  {
    var good := Obj([("SkillName", Str("Go"))]);
    assert Keys(good.fields) == ["SkillName"];
    assert SkillEntryOk(good);
    assert SkillEntryOk(Obj([]));
    var reply := Obj([("Skills", Arr([good, Obj([])]))]);
    assert Keys(reply.fields) == ["Skills"];
    GateAcceptsExactly(Some(reply));
  }

  /** The empty reply `{}` is accepted, since both lookups fall back to their
      defaults, and so is an empty object as Skills: it has no keys to visit. */
  lemma {:induction false} GateAcceptsEmptyObjects()
    ensures EvalGate(Some(Obj([]))).Some?
    ensures EvalGate(Some(Obj([("Skills", Obj([]))]))).Some?
  {
    GateAcceptsExactly(Some(Obj([])));
    GateAcceptsExactly(Some(Obj([("Skills", Obj([]))])));
  }
}
