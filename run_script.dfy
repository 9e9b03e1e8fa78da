/** The patch of the launch script `run.sh` (`update_run_sh`): the first line
    carrying a `--model ` flag is rewritten to name the best model, keeping its
    indentation. The script's lines are an input value (absent when the file
    does not exist) and the lines to write back are part of the result. */
module RunScript {
  import opened Wrappers
  import Text

  /** The flag the patch looks for, trailing space included. */
  const ModelFlag: string := "--model "
  /** What follows the model identifier on the rewritten line: a space, a
      backslash line continuation and the newline `readlines` kept. */
  const LineEnd: string := " \\\n"

  /** A line the patch may rewrite: `"--model " in line`. */
  predicate IsFlagLine(line: string) {
    Text.Contains(line, ModelFlag)
  }

  /** A line made of whitespace `ind` and then the flag, the model and the line
      end contains the flag and has `ind` as its indentation. */
  lemma RewrittenLine(ind: string, model: string)
    requires forall i :: 0 <= i < |ind| ==> Text.IsSpace(ind[i])
    ensures IsFlagLine(ind + ModelFlag + model + LineEnd)
    ensures Text.Indent(ind + ModelFlag + model + LineEnd) == ind
  {
    var rest := ModelFlag + model + LineEnd;
    assert ind + ModelFlag + model + LineEnd == ind + rest;
    assert (ind + rest)[|ind|..] == rest;
    assert Text.OccursAt(ind + rest, ModelFlag, |ind|);
    Text.ContainsIffOccurs(ind + rest, ModelFlag);
    assert rest[0] == '-';
    Text.IndentOfIndented(ind, rest);
  }

  /** `f"{indent}--model {best_model} \\\n"` with the line's own indentation.
      The rewritten line is again a flag line, and its indentation is the
      original line's. */
  function FlagLine(line: string, model: string): (r: string)
    ensures IsFlagLine(r)
    ensures Text.Indent(r) == Text.Indent(line)
  {
    RewrittenLine(Text.Indent(line), model);
    Text.Indent(line) + ModelFlag + model + LineEnd
  }

  /** Line `j` is the first flag line of `lines`. */
  ghost predicate IsFirstFlagLine(lines: seq<string>, j: int) {
    0 <= j < |lines| && IsFlagLine(lines[j]) && forall i :: 0 <= i < j ==> !IsFlagLine(lines[i])
  }

  /** The position of the first flag line, if any. */
  function FirstFlagLine(lines: seq<string>): (r: Option<nat>)
    ensures r.Some? ==> IsFirstFlagLine(lines, r.value)
    ensures r.None? ==> forall j :: 0 <= j < |lines| ==> !IsFlagLine(lines[j])
  {
    if lines == [] then None
    else if IsFlagLine(lines[0]) then Some(0)
    else match FirstFlagLine(lines[1..])
      case None => None
      case Some(j) => Some(j + 1)
  }

  /** The script after the patch: the first flag line rewritten, every other
      line as it was; with no flag line, the script unchanged. */
  function Patched(lines: seq<string>, model: string): (r: seq<string>)
    ensures |r| == |lines|
    ensures forall j :: 0 <= j < |lines| && IsFirstFlagLine(lines, j) ==> r[j] == FlagLine(lines[j], model)
    ensures forall j :: 0 <= j < |lines| && !IsFirstFlagLine(lines, j) ==> r[j] == lines[j]
  {
    match FirstFlagLine(lines)
    case None => lines
    case Some(i) => lines[i := FlagLine(lines[i], model)]
  }

  /** Rewriting a rewritten line once more for the same model gives the same
      line: its indentation is the one it was given. */
  lemma FlagLineIdempotent(line: string, model: string)
    ensures FlagLine(FlagLine(line, model), model) == FlagLine(line, model)
  {
  }

  /** Patching a patched script for the same model changes nothing more. */
  lemma PatchedIdempotent(lines: seq<string>, model: string)
    ensures Patched(Patched(lines, model), model) == Patched(lines, model)
  {
    var p := Patched(lines, model);
    match FirstFlagLine(lines)
    case None =>
    case Some(i) =>
      FlagLineIdempotent(lines[i], model);
      assert IsFirstFlagLine(p, i);
      assert FirstFlagLine(p) == Some(i);
  }

  /** A worked case: a script whose one line is `  --model <old> \` has it
      rewritten to `  --model <new> \`, indentation and continuation kept. */
  lemma PatchExample(oldModel: string, newModel: string)
    ensures Patched(["  " + ModelFlag + oldModel + LineEnd], newModel) == ["  " + ModelFlag + newModel + LineEnd]
  {
    var line := "  " + ModelFlag + oldModel + LineEnd;
    RewrittenLine("  ", oldModel);
    assert FirstFlagLine([line]) == Some(0);
  }

  /** The loop of `update_run_sh`: scan the lines in order and rewrite the
      first flag line in place, then stop. `updated` reports whether a line
      was rewritten. */
  method PatchModelFlag(lines: array<string>, model: string) returns (updated: bool)
    modifies lines
    ensures updated == FirstFlagLine(old(lines[..])).Some?
    ensures lines[..] == Patched(old(lines[..]), model)
  {
    updated := false;
    var i := 0;
    while i < lines.Length
      invariant 0 <= i <= lines.Length
      invariant lines[..] == old(lines[..])
      invariant forall j :: 0 <= j < i ==> !IsFlagLine(lines[j])
    {
      if IsFlagLine(lines[i]) {
        var indent := Text.Indent(lines[i]);
        lines[i] := indent + ModelFlag + model + LineEnd;
        updated := true;
        assert IsFirstFlagLine(old(lines[..]), i);
        break;
      }
      i := i + 1;
    }
  }

  /** What `update_run_sh` does with the script. */
  datatype PatchOutcome =
    | NoModel          // no best model (absent or empty): returns at once
    | ScriptNotFound   // `run.sh` does not exist: reported, nothing written
    | FlagNotFound     // no line holds `--model `: reported, nothing written
    | Written(lines: seq<string>)  // the lines written back

  /** `update_run_sh`: skip without a best model or a script, otherwise patch
      the lines and write them back only if a flag line was rewritten. */
  method UpdateRunSh(bestModel: Option<string>, script: Option<seq<string>>) returns (r: PatchOutcome)
    ensures (bestModel.None? || bestModel == Some("")) ==> r == NoModel
    ensures bestModel.Some? && bestModel.value != "" && script.None? ==> r == ScriptNotFound
    ensures bestModel.Some? && bestModel.value != "" && script.Some? ==>
      (r.Written? <==> exists j :: 0 <= j < |script.value| && IsFlagLine(script.value[j]))
    ensures bestModel.Some? && bestModel.value != "" && script.Some? ==>
      (r.FlagNotFound? <==> forall j :: 0 <= j < |script.value| ==> !IsFlagLine(script.value[j]))
    ensures r.Written? ==> bestModel.Some? && script.Some? && r.lines == Patched(script.value, bestModel.value)
  {
    if bestModel.None? || bestModel.value == "" {
      return NoModel;
    }
    if script.None? {
      return ScriptNotFound;
    }
    var s := script.value;
    var lines := new string[|s|](i requires 0 <= i < |s| => s[i]);
    assert lines[..] == s;
    var updated := PatchModelFlag(lines, bestModel.value);
    if updated {
      r := Written(lines[..]);
    } else {
      r := FlagNotFound;
    }
  }
}
