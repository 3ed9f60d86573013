/** The loop over the uploaded files: for each one the prompt is sent, the
    reply is gated, and an accepted reply's row is appended to `results`.
    A rejected reply is reported together with `flat`, the last row built;
    while no row has been built that name is unbound, the report itself
    raises and the run ends.

    The work done for one file (`Process`) is kept apart from the loop's
    bookkeeping (`Fold`), which only sees each file's outcome. */
module Batch {
  import opened Options
  import opened JsonValues
  import opened CvText
  import opened Gate
  import opened Rows

  /** What the loop reads from the surrounding script: the instructions
      placed before every CV, and `json.dumps`. */
  datatype Config = Config(instructions: string, serialize: Json -> string)

  /** The script's own configuration: its prompts are the ones `full_prompt`
      builds with the fixed instructions. */
  function AppConfig(serialize: Json -> string): Config
  {
    Config(SystemPrompt, serialize)
  }

  /** One uploaded file: its name, its pages as the PDF reader sees them, and
      what `json.loads` made of the model's reply (None: it did not parse). */
  datatype Upload = Upload(name: string, pages: seq<Page>, reply: Option<Json>)

  /** What processing one file produced: the prompt sent, the reply, and the
      row, or None when the gate raised. */
  datatype Outcome = Outcome(name: string, prompt: string, reply: Option<Json>, row: Option<Row>)

  /** The body of the loop up to the append: build the prompt, gate the
      reply, build the row. */
  function Process(u: Upload, cfg: Config): (o: Outcome)
    ensures o.name == u.name && o.reply == u.reply
    ensures o.prompt == Prompt(cfg.instructions, u.pages)
    ensures o.row.Some? <==> Accepted(u.reply)
    ensures o.row.Some? ==> o.row.value == BuildRow(u.name, u.reply.value.fields, cfg.serialize)
  {
    var row := RowFor(u.name, u.reply, cfg.serialize);
    Outcome(u.name, Prompt(cfg.instructions, u.pages), u.reply, row)
  }

  /** The outcomes of the files, in upload order. */
  function ProcessAll(uploads: seq<Upload>, cfg: Config): (outs: seq<Outcome>)
    ensures |outs| == |uploads|
    ensures forall i :: 0 <= i < |uploads| ==> outs[i] == Process(uploads[i], cfg)
  {
    seq(|uploads|, i requires 0 <= i < |uploads| => Process(uploads[i], cfg))
  }

  /** The error shown for a rejected file: its name and the `flat` row. */
  datatype Report = Report(file: string, shown: Row)

  /** The loop's state. `sent` lists the prompts given to the model. A run
      that is Crashed stopped at `file`, whose report raised NameError. */
  datatype State =
    | Active(sent: seq<string>, results: seq<Row>, flat: Option<Row>, errors: seq<Report>)
    | Crashed(sent: seq<string>, results: seq<Row>, errors: seq<Report>, file: string)

  const Start: State := Active([], [], None, [])

  /** One iteration's bookkeeping: append the row and rebind `flat`, or
      report the file with `flat`, which raises while `flat` is unbound. */
  function Step(s: State, o: Outcome): State
  {
    match s
    case Crashed(_, _, _, _) => s
    case Active(sent, results, flat, errors) =>
      var sent' := sent + [o.prompt];
      match o.row
      case Some(row) => Active(sent', results + [row], Some(row), errors)
      case None =>
        match flat
        case None => Crashed(sent', results, errors, o.name)
        case Some(shown) => Active(sent', results, flat, errors + [Report(o.name, shown)])
  }

  /** The state after the loop has handled `outs`. */
  function Fold(outs: seq<Outcome>): State
  {
    if |outs| == 0 then Start
    else Step(Fold(outs[..|outs| - 1]), outs[|outs| - 1])
  }

  /** The state after the loop has run over `uploads`. */
  function Run(uploads: seq<Upload>, cfg: Config): State
  {
    Fold(ProcessAll(uploads, cfg))
  }

  /** The rows of the outcomes that have one, in order. */
  function RowsOf(outs: seq<Outcome>): seq<Row>
  {
    if |outs| == 0 then []
    else
      var o := outs[|outs| - 1];
      RowsOf(outs[..|outs| - 1]) + (if o.row.Some? then [o.row.value] else [])
  }

  /** The names of the outcomes without a row, in order. */
  function FailedNames(outs: seq<Outcome>): seq<string>
  {
    if |outs| == 0 then []
    else
      var o := outs[|outs| - 1];
      FailedNames(outs[..|outs| - 1]) + (if o.row.Some? then [] else [o.name])
  }

  /** The latest row among the outcomes, if any. */
  function LastRow(outs: seq<Outcome>): Option<Row>
  {
    if |outs| == 0 then None
    else if outs[|outs| - 1].row.Some? then outs[|outs| - 1].row
    else LastRow(outs[..|outs| - 1])
  }

  /** The prompts of the outcomes, in order. */
  function Prompts(outs: seq<Outcome>): seq<string>
  {
    seq(|outs|, i requires 0 <= i < |outs| => outs[i].prompt)
  }

  /** The file names of a list of reports, in order. */
  function ReportedFiles(errors: seq<Report>): seq<string>
  {
    seq(|errors|, i requires 0 <= i < |errors| => errors[i].file)
  }

  /** Reference definition: one report per outcome without a row, showing
      the latest row before it (the empty row when there is none). */
  function ExpectedReports(outs: seq<Outcome>): seq<Report>
  {
    if |outs| == 0 then []
    else
      var init := outs[..|outs| - 1];
      var o := outs[|outs| - 1];
      ExpectedReports(init) + (if o.row.None? then [Report(o.name, LastRow(init).GetOr([]))] else [])
  }

  /** A crashed run stays crashed: no later file is processed. */
  lemma {:induction false} StepKeepsCrash(s: State, o: Outcome)
    requires s.Crashed?
    ensures Step(s, o) == s
  {
  }

  /** The fold crashes exactly when the first outcome has no row, and then
      it has sent one prompt and kept no rows and no reports. */
  lemma {:induction false} FoldCrash(outs: seq<Outcome>)
    ensures Fold(outs).Crashed? <==> |outs| > 0 && outs[0].row.None?
    ensures Fold(outs).Crashed? ==> Fold(outs) == Crashed([outs[0].prompt], [], [], outs[0].name)
  {
    if |outs| > 0 {
      var init := outs[..|outs| - 1];
      FoldCrash(init);
      FoldTracksLastRow(init);
      if |init| > 0 {
        assert init[0] == outs[0];
        if outs[0].row.Some? {
          LastRowOfRowFirst(init);
        }
      }
    }
  }

  /** While the fold is active, `flat` is the latest row, unbound when none. */
  lemma {:induction false} FoldTracksLastRow(outs: seq<Outcome>)
    ensures Fold(outs).Active? ==> Fold(outs).flat == LastRow(outs)
  {
    if |outs| > 0 {
      FoldTracksLastRow(outs[..|outs| - 1]);
    }
  }

  /** Once the first outcome has a row, there is always a latest row. */
  lemma {:induction false} LastRowOfRowFirst(outs: seq<Outcome>)
    requires |outs| > 0 && outs[0].row.Some?
    ensures LastRow(outs).Some?
  {
    if |outs| > 1 {
      var init := outs[..|outs| - 1];
      assert init[0] == outs[0];
      LastRowOfRowFirst(init);
    }
  }

  /** The latest row is one of the rows. */
  lemma {:induction false} LastRowIsARow(outs: seq<Outcome>)
    ensures LastRow(outs).Some? ==> LastRow(outs).value in RowsOf(outs)
  {
    if |outs| > 0 {
      LastRowIsARow(outs[..|outs| - 1]);
    }
  }

  /** A file without a row that the loop survives is reported with the row
      of the latest file before it that had one. */
  lemma {:induction false} ReportShowsLatestRow(outs: seq<Outcome>)
    requires |outs| > 0 && Fold(outs).Active? && outs[|outs| - 1].row.None?
    ensures LastRow(outs[..|outs| - 1]).Some?
    ensures Fold(outs).errors ==
              Fold(outs[..|outs| - 1]).errors + [Report(outs[|outs| - 1].name, LastRow(outs[..|outs| - 1]).value)]
  {
    FoldTracksLastRow(outs[..|outs| - 1]);
  }

  /** The reports of a fold that completes are the expected ones. */
  lemma {:induction false} FoldReports(outs: seq<Outcome>)
    requires Fold(outs).Active?
    ensures Fold(outs).errors == ExpectedReports(outs)
  {
    if |outs| > 0 {
      var init := outs[..|outs| - 1];
      FoldReports(init);
      if outs[|outs| - 1].row.None? {
        ReportShowsLatestRow(outs);
      }
    }
  }

  /** A fold that completes has sent every prompt and kept every row, in
      order, with one row or report per outcome. */
  lemma {:induction false} FoldSentAndRows(outs: seq<Outcome>)
    requires Fold(outs).Active?
    ensures Fold(outs).sent == Prompts(outs)
    ensures Fold(outs).results == RowsOf(outs)
    ensures |Fold(outs).results| + |Fold(outs).errors| == |outs|
  {
    if |outs| > 0 {
      var init := outs[..|outs| - 1];
      FoldSentAndRows(init);
      assert Prompts(outs) == Prompts(init) + [outs[|outs| - 1].prompt];
    }
  }

  /** The expected reports name the outcomes without a row, in order. */
  lemma {:induction false} ExpectedReportFiles(outs: seq<Outcome>)
    ensures ReportedFiles(ExpectedReports(outs)) == FailedNames(outs)
  {
    if |outs| > 0 {
      var init := outs[..|outs| - 1];
      ExpectedReportFiles(init);
      var o := outs[|outs| - 1];
      var extra := if o.row.None? then [Report(o.name, LastRow(init).GetOr([]))] else [];
      assert ReportedFiles(ExpectedReports(init) + extra) == ReportedFiles(ExpectedReports(init)) + ReportedFiles(extra);
    }
  }

  /** In a fold that completes, every report shows a row among the results. */
  lemma {:induction false} FoldReportsShowResults(outs: seq<Outcome>)
    requires Fold(outs).Active?
    ensures forall e :: e in Fold(outs).errors ==> e.shown in Fold(outs).results
  {
    if |outs| > 0 {
      var init := outs[..|outs| - 1];
      FoldReportsShowResults(init);
      FoldTracksLastRow(init);
      LastRowIsARow(init);
      FoldSentAndRows(init);
    }
  }

  /** A fold that completes has sent every prompt in order, kept every row
      in order, and reported every file without one in order, each with the
      latest row before it, which is among the results. */
  lemma {:induction false} FoldCompleted(outs: seq<Outcome>)
    requires Fold(outs).Active?
    ensures Fold(outs).sent == Prompts(outs)
    ensures Fold(outs).results == RowsOf(outs)
    ensures ReportedFiles(Fold(outs).errors) == FailedNames(outs)
    ensures |Fold(outs).results| + |Fold(outs).errors| == |outs|
    ensures Fold(outs).errors == ExpectedReports(outs)
    ensures forall e :: e in Fold(outs).errors ==> e.shown in Fold(outs).results
  {
    FoldSentAndRows(outs);
    FoldReports(outs);
    ExpectedReportFiles(outs);
    FoldReportsShowResults(outs);
  }

  /** Reference definition: the rows of the accepted uploads, in upload order. */
  function AcceptedRows(uploads: seq<Upload>, cfg: Config): seq<Row>
  {
    if |uploads| == 0 then []
    else
      var u := uploads[|uploads| - 1];
      AcceptedRows(uploads[..|uploads| - 1], cfg)
        + (if Accepted(u.reply) then [BuildRow(u.name, u.reply.value.fields, cfg.serialize)] else [])
  }

  /** Reference definition: the names of the rejected uploads, in order. */
  function RejectedNames(uploads: seq<Upload>): seq<string>
  {
    if |uploads| == 0 then []
    else
      var u := uploads[|uploads| - 1];
      RejectedNames(uploads[..|uploads| - 1]) + (if Accepted(u.reply) then [] else [u.name])
  }

  /** Reference definition: the row of the latest accepted upload, if any. */
  function LatestAccepted(uploads: seq<Upload>, cfg: Config): Option<Row>
  {
    if |uploads| == 0 then None
    else
      var u := uploads[|uploads| - 1];
      if Accepted(u.reply) then Some(BuildRow(u.name, u.reply.value.fields, cfg.serialize))
      else LatestAccepted(uploads[..|uploads| - 1], cfg)
  }

  /** Reference definition: one report per rejected upload, in order,
      showing the row of the latest accepted upload before it. */
  function RejectionReports(uploads: seq<Upload>, cfg: Config): seq<Report>
  {
    if |uploads| == 0 then []
    else
      var init := uploads[..|uploads| - 1];
      var u := uploads[|uploads| - 1];
      RejectionReports(init, cfg)
        + (if Accepted(u.reply) then [] else [Report(u.name, LatestAccepted(init, cfg).GetOr([]))])
  }

  /** The outcomes' rows and failures are those of the uploads. */
  lemma {:induction false} OutcomesMatchUploads(uploads: seq<Upload>, cfg: Config)
    ensures RowsOf(ProcessAll(uploads, cfg)) == AcceptedRows(uploads, cfg)
    ensures FailedNames(ProcessAll(uploads, cfg)) == RejectedNames(uploads)
    ensures LastRow(ProcessAll(uploads, cfg)) == LatestAccepted(uploads, cfg)
    ensures ExpectedReports(ProcessAll(uploads, cfg)) == RejectionReports(uploads, cfg)
  {
    if |uploads| > 0 {
      var init := uploads[..|uploads| - 1];
      var outs := ProcessAll(uploads, cfg);
      assert outs[..|outs| - 1] == ProcessAll(init, cfg);
      OutcomesMatchUploads(init, cfg);
    }
  }

  /** A run crashes exactly when the first upload is rejected: after one
      accepted upload `flat` stays bound, since nothing after the gate raises.
      The crash happens on that first upload, before any row or report. */
  lemma {:induction false} CrashesExactlyOnFirstRejection(uploads: seq<Upload>, cfg: Config)
    ensures Run(uploads, cfg).Crashed? <==> |uploads| > 0 && !Accepted(uploads[0].reply)
    ensures Run(uploads, cfg).Crashed? ==>
              Run(uploads, cfg) == Crashed([Prompt(cfg.instructions, uploads[0].pages)], [], [], uploads[0].name)
  {
    FoldCrash(ProcessAll(uploads, cfg));
  }

  /** A run that completes sent one prompt per upload, built from its pages,
      in order; holds the rows of the accepted uploads in upload order; has
      one report per rejected upload, in order, showing the row of the latest
      accepted upload before it, which is among the results. */
  lemma {:induction false} CompletedRunResults(uploads: seq<Upload>, cfg: Config)
    requires Run(uploads, cfg).Active?
    ensures |Run(uploads, cfg).sent| == |uploads|
    ensures forall i :: 0 <= i < |uploads| ==> Run(uploads, cfg).sent[i] == Prompt(cfg.instructions, uploads[i].pages)
    ensures Run(uploads, cfg).results == AcceptedRows(uploads, cfg)
    ensures ReportedFiles(Run(uploads, cfg).errors) == RejectedNames(uploads)
    ensures |Run(uploads, cfg).results| + |Run(uploads, cfg).errors| == |uploads|
    ensures Run(uploads, cfg).errors == RejectionReports(uploads, cfg)
    ensures forall e :: e in Run(uploads, cfg).errors ==> e.shown in Run(uploads, cfg).results
  {
    var outs := ProcessAll(uploads, cfg);
    FoldCompleted(outs);
    OutcomesMatchUploads(uploads, cfg);
    forall i | 0 <= i < |uploads|
      ensures Run(uploads, cfg).sent[i] == Prompt(cfg.instructions, uploads[i].pages)
    {
      assert Prompts(outs)[i] == outs[i].prompt;
    }
  }

  /** Every prompt a run sends, whether or not it completes, begins with
      the configured instructions. */
  lemma {:induction false} RunPromptsStartWithInstructions(uploads: seq<Upload>, cfg: Config)
    ensures forall i :: 0 <= i < |Run(uploads, cfg).sent| ==> cfg.instructions <= Run(uploads, cfg).sent[i]
  {
    var r := Run(uploads, cfg);
    CrashesExactlyOnFirstRejection(uploads, cfg);
    if r.Active? {
      CompletedRunResults(uploads, cfg);
    }
    forall i | 0 <= i < |r.sent|
      ensures cfg.instructions <= r.sent[i]
    {
      var j := if r.Crashed? then 0 else i;
      PromptShape(cfg.instructions, uploads[j].pages);
    }
  }

  /** Every prompt the script sends, whether or not the run completes,
      begins with the fixed instructions. */
  lemma {:induction false} AppPromptsStartWithInstructions(uploads: seq<Upload>, serialize: Json -> string)
    ensures forall i :: 0 <= i < |Run(uploads, AppConfig(serialize)).sent| ==>
              SystemPrompt <= Run(uploads, AppConfig(serialize)).sent[i]
  {
    RunPromptsStartWithInstructions(uploads, AppConfig(serialize));
  }

  /** Concrete case of the crash: a single upload whose reply did not parse
      ends the run on its own report; no table is produced. */
  lemma {:induction false} FirstReplyUnparsedStopsRun(name: string, pages: seq<Page>, cfg: Config)
    ensures Run([Upload(name, pages, None)], cfg) == Crashed([Prompt(cfg.instructions, pages)], [], [], name)
  {
    CrashesExactlyOnFirstRejection([Upload(name, pages, None)], cfg);
  }

  /** The evidently intended handler: report the rejected file with the reply
      it got and go on, whatever came before. */
  datatype Issue = Issue(file: string, reply: Option<Json>)

  /** The loop's state under the corrected handler. */
  datatype FixedState = FixedState(sent: seq<string>, results: seq<Row>, issues: seq<Issue>)

  function FixedStep(s: FixedState, o: Outcome): FixedState
  {
    var sent' := s.sent + [o.prompt];
    match o.row
    case Some(row) => FixedState(sent', s.results + [row], s.issues)
    case None => FixedState(sent', s.results, s.issues + [Issue(o.name, o.reply)])
  }

  function FixedFold(outs: seq<Outcome>): FixedState
  {
    if |outs| == 0 then FixedState([], [], [])
    else FixedStep(FixedFold(outs[..|outs| - 1]), outs[|outs| - 1])
  }

  function FixedRun(uploads: seq<Upload>, cfg: Config): FixedState
  {
    FixedFold(ProcessAll(uploads, cfg))
  }

  /** Reference definition: one issue per outcome without a row, in order,
      carrying that file's name and reply. */
  function FailedIssues(outs: seq<Outcome>): seq<Issue>
  {
    if |outs| == 0 then []
    else
      var o := outs[|outs| - 1];
      FailedIssues(outs[..|outs| - 1]) + (if o.row.Some? then [] else [Issue(o.name, o.reply)])
  }

  /** Reference definition: one issue per rejected upload, in order, carrying
      the upload's name and the reply it got. */
  function RejectedIssues(uploads: seq<Upload>): seq<Issue>
  {
    if |uploads| == 0 then []
    else
      var u := uploads[|uploads| - 1];
      RejectedIssues(uploads[..|uploads| - 1]) + (if Accepted(u.reply) then [] else [Issue(u.name, u.reply)])
  }

  /** The outcomes' issues are those of the uploads. */
  lemma {:induction false} OutcomeIssuesMatchUploads(uploads: seq<Upload>, cfg: Config)
    ensures FailedIssues(ProcessAll(uploads, cfg)) == RejectedIssues(uploads)
  {
    if |uploads| > 0 {
      var init := uploads[..|uploads| - 1];
      var outs := ProcessAll(uploads, cfg);
      assert outs[..|outs| - 1] == ProcessAll(init, cfg);
      OutcomeIssuesMatchUploads(init, cfg);
    }
  }

  /** The corrected fold handles every outcome. */
  lemma {:induction false} FixedFoldHandlesAll(outs: seq<Outcome>)
    ensures FixedFold(outs).sent == Prompts(outs)
    ensures FixedFold(outs).results == RowsOf(outs)
    ensures |FixedFold(outs).issues| == |FailedNames(outs)|
    ensures forall i :: 0 <= i < |FixedFold(outs).issues| ==> FixedFold(outs).issues[i].file == FailedNames(outs)[i]
    ensures FixedFold(outs).issues == FailedIssues(outs)
  {
    if |outs| > 0 {
      var init := outs[..|outs| - 1];
      FixedFoldHandlesAll(init);
      assert Prompts(outs) == Prompts(init) + [outs[|outs| - 1].prompt];
    }
  }

  /** With the corrected handler every upload is processed on every input:
      one prompt per upload, the accepted rows in order, and one issue per
      rejected file, in order, carrying the reply that file got. */
  lemma {:induction false} FixedRunIsolatesFailures(uploads: seq<Upload>, cfg: Config)
    ensures |FixedRun(uploads, cfg).sent| == |uploads|
    ensures FixedRun(uploads, cfg).results == AcceptedRows(uploads, cfg)
    ensures |FixedRun(uploads, cfg).issues| == |RejectedNames(uploads)|
    ensures forall i :: 0 <= i < |FixedRun(uploads, cfg).issues| ==>
              FixedRun(uploads, cfg).issues[i].file == RejectedNames(uploads)[i]
    ensures FixedRun(uploads, cfg).issues == RejectedIssues(uploads)
  {
    FixedFoldHandlesAll(ProcessAll(uploads, cfg));
    OutcomesMatchUploads(uploads, cfg);
    FixedRunIssues(uploads, cfg);
  }

  /** With the corrected handler each rejected upload is reported with the
      reply it got, in upload order, and no accepted upload is reported. */
  lemma {:induction false} FixedRunIssues(uploads: seq<Upload>, cfg: Config)
    ensures FixedRun(uploads, cfg).issues == RejectedIssues(uploads)
    ensures forall i :: 0 <= i < |FixedRun(uploads, cfg).issues| ==> !Accepted(FixedRun(uploads, cfg).issues[i].reply)
  {
    FixedFoldHandlesAll(ProcessAll(uploads, cfg));
    OutcomeIssuesMatchUploads(uploads, cfg);
    RejectedIssuesRejected(uploads);
  }

  /** Every issue of the reference list holds a reply the gate rejects. */
  lemma {:induction false} RejectedIssuesRejected(uploads: seq<Upload>)
    ensures forall i :: 0 <= i < |RejectedIssues(uploads)| ==> !Accepted(RejectedIssues(uploads)[i].reply)
  {
    if |uploads| > 0 {
      RejectedIssuesRejected(uploads[..|uploads| - 1]);
    }
  }

  /** Where the two handlers agree: a run that does not crash keeps the same
      results as the corrected one. */
  lemma {:induction false} AgreesWhenNotCrashed(uploads: seq<Upload>, cfg: Config)
    requires Run(uploads, cfg).Active?
    ensures Run(uploads, cfg).results == FixedRun(uploads, cfg).results
  {
    CompletedRunResults(uploads, cfg);
    FixedRunIsolatesFailures(uploads, cfg);
  }
}
