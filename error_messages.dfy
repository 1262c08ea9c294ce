/** The user-facing rewording of exception messages: a priority chain of substring tests. */
module ErrorMessages {
  import opened Text

  const GpuMemoryText: string := "GPU memory insufficient. Try reducing frame number or using a smaller model."
  const ModelFilesText: string := "Required model files not found. Please check model installation."
  const DependenciesText: string := "Missing dependencies. Please install required packages."
  const AudioPrefix: string := "Audio processing error: "
  const ImagePrefix: string := "Image processing error: "
  const GenericPrefix: string := "Error: "

  /** Which branch of the chain a message takes. */
  datatype ErrorKind = GpuMemory | ModelFiles | Dependencies | AudioError | ImageError | Generic

  /** The first test, in order, that the message's text passes. */
  function Categorize(error: string): ErrorKind {
    if Contains(error, "CUDA out of memory") then GpuMemory
    else if Contains(error, "FileNotFoundError") then ModelFiles
    else if Contains(error, "No module named") then Dependencies
    else if Contains(error, "Invalid audio") || Contains(error, "Audio") then AudioError
    else if Contains(error, "Invalid image") || Contains(error, "Image") then ImageError
    else Generic
  }

  /** format_error_message: a fixed text for the first three kinds, the original message behind
      a prefix for the others. */
  function FormatErrorMessage(error: string): (r: string)
    ensures Categorize(error) == GpuMemory ==> r == GpuMemoryText
    ensures Categorize(error) == ModelFiles ==> r == ModelFilesText
    ensures Categorize(error) == Dependencies ==> r == DependenciesText
    ensures Categorize(error) == AudioError ==> r == AudioPrefix + error
    ensures Categorize(error) == ImageError ==> r == ImagePrefix + error
    ensures Categorize(error) == Generic ==> r == GenericPrefix + error
  {
    match Categorize(error)
    case GpuMemory => GpuMemoryText
    case ModelFiles => ModelFilesText
    case Dependencies => DependenciesText
    case AudioError => AudioPrefix + error
    case ImageError => ImagePrefix + error
    case Generic => GenericPrefix + error
  }

  /** A rule of the chain: the kind it yields and the texts any one of which selects it. */
  datatype Rule = Rule(kind: ErrorKind, needles: seq<string>)

  /** The chain as a table, in the order the tests are made. */
  const Rules: seq<Rule> := [
    Rule(GpuMemory, ["CUDA out of memory"]),
    Rule(ModelFiles, ["FileNotFoundError"]),
    Rule(Dependencies, ["No module named"]),
    Rule(AudioError, ["Invalid audio", "Audio"]),
    Rule(ImageError, ["Invalid image", "Image"])
  ]

  predicate Fires(rule: Rule, error: string) {
    exists i :: 0 <= i < |rule.needles| && Contains(error, rule.needles[i])
  }

  /** The kind of the first rule that fires, Generic when none does. */
  function FirstFiring(rules: seq<Rule>, error: string): ErrorKind {
    if rules == [] then Generic
    else if Fires(rules[0], error) then rules[0].kind
    else FirstFiring(rules[1..], error)
  }

  /** FirstFiring yields the kind of the rule at the least index that fires, and Generic exactly
      when no rule fires. */
  lemma {:induction false} FirstFiringIsLeast(rules: seq<Rule>, error: string)
    ensures (forall j :: 0 <= j < |rules| ==> !Fires(rules[j], error)) ==> FirstFiring(rules, error) == Generic
    ensures forall i ::
      0 <= i < |rules| && Fires(rules[i], error) && (forall j :: 0 <= j < i ==> !Fires(rules[j], error)) ==>
        FirstFiring(rules, error) == rules[i].kind
    decreases |rules|
  {
    if rules != [] {
      FirstFiringIsLeast(rules[1..], error);
      forall i | 0 <= i < |rules| && Fires(rules[i], error) && (forall j :: 0 <= j < i ==> !Fires(rules[j], error))
        ensures FirstFiring(rules, error) == rules[i].kind
      {
        if i > 0 {
          assert !Fires(rules[0], error);
          assert rules[1..][i - 1] == rules[i];
          forall j | 0 <= j < i - 1 ensures !Fires(rules[1..][j], error) {
            assert rules[1..][j] == rules[j + 1];
          }
        }
      }
      if forall j :: 0 <= j < |rules| ==> !Fires(rules[j], error) {
        forall j | 0 <= j < |rules| - 1 ensures !Fires(rules[1..][j], error) {
          assert rules[1..][j] == rules[j + 1];
        }
      }
    }
  }

  lemma FiresSingle(rule: Rule, error: string)
    requires |rule.needles| == 1
    ensures Fires(rule, error) <==> Contains(error, rule.needles[0])
  {
    if Contains(error, rule.needles[0]) {
      assert 0 <= 0 < |rule.needles| && Contains(error, rule.needles[0]);
    }
  }

  lemma FiresPair(rule: Rule, error: string)
    requires |rule.needles| == 2
    ensures Fires(rule, error) <==> Contains(error, rule.needles[0]) || Contains(error, rule.needles[1])
  {
    if Contains(error, rule.needles[0]) {
      assert 0 <= 0 < |rule.needles| && Contains(error, rule.needles[0]);
    }
    if Contains(error, rule.needles[1]) {
      assert 0 <= 1 < |rule.needles| && Contains(error, rule.needles[1]);
    }
  }

  /** The hand-written chain of tests is the table read in order. */
  lemma CategorizeFollowsRules(error: string)
    ensures Categorize(error) == FirstFiring(Rules, error)
  {
    var r0 := Rules;
    var r1 := [Rule(ModelFiles, ["FileNotFoundError"]), Rule(Dependencies, ["No module named"]),
               Rule(AudioError, ["Invalid audio", "Audio"]), Rule(ImageError, ["Invalid image", "Image"])];
    var r2 := [Rule(Dependencies, ["No module named"]),
               Rule(AudioError, ["Invalid audio", "Audio"]), Rule(ImageError, ["Invalid image", "Image"])];
    var r3 := [Rule(AudioError, ["Invalid audio", "Audio"]), Rule(ImageError, ["Invalid image", "Image"])];
    var r4 := [Rule(ImageError, ["Invalid image", "Image"])];
    assert r0[1..] == r1 && r1[1..] == r2 && r2[1..] == r3 && r3[1..] == r4 && r4[1..] == [];
    FiresSingle(r0[0], error);
    FiresSingle(r1[0], error);
    FiresSingle(r2[0], error);
    FiresPair(r3[0], error);
    FiresPair(r4[0], error);
    assert FirstFiring(r4, error) == if Fires(r4[0], error) then ImageError else Generic;
    assert FirstFiring(r3, error) == if Fires(r3[0], error) then AudioError else FirstFiring(r4, error);
    assert FirstFiring(r2, error) == if Fires(r2[0], error) then Dependencies else FirstFiring(r3, error);
    assert FirstFiring(r1, error) == if Fires(r1[0], error) then ModelFiles else FirstFiring(r2, error);
  }

  /** Out-of-memory wins whatever else the message holds; a missing-file message is reported as
      such unless it also reports out-of-memory; a generic message is one no rule fires on. */
  lemma CategorizeFirstMatch(error: string)
    ensures Categorize(error) == GpuMemory <==> Contains(error, "CUDA out of memory")
    ensures Categorize(error) == ModelFiles <==>
      !Contains(error, "CUDA out of memory") && Contains(error, "FileNotFoundError")
    ensures Categorize(error) == Generic <==> forall j :: 0 <= j < |Rules| ==> !Fires(Rules[j], error)
  {
    CategorizeFollowsRules(error);
    FirstFiringIsLeast(Rules, error);
    var r := Rules;
    FiresSingle(r[0], error);
    FiresSingle(r[1], error);
    FirstFiringGeneric(r, error);
  }

  /** With no rule yielding Generic, the chain yields Generic exactly when no rule fires. */
  lemma {:induction false} FirstFiringGeneric(rules: seq<Rule>, error: string)
    requires forall k :: 0 <= k < |rules| ==> rules[k].kind != Generic
    ensures FirstFiring(rules, error) == Generic <==> forall j :: 0 <= j < |rules| ==> !Fires(rules[j], error)
    decreases |rules|
  {
    if rules != [] {
      var tail := rules[1..];
      assert forall k :: 0 <= k < |tail| ==> tail[k] == rules[k + 1];
      FirstFiringGeneric(tail, error);
    }
  }

  /** The prefix a kind puts before the original message, if it keeps it. */
  function PrefixOf(kind: ErrorKind): string {
    match kind
    case AudioError => AudioPrefix
    case ImageError => ImagePrefix
    case Generic => GenericPrefix
    case _ => []
  }

  /** The last three kinds keep the original message verbatim after their prefix, so it can be
      recovered from the display text; the first three replace it by a text that no longer depends
      on it. */
  lemma OriginalRecoverable(error: string)
    ensures var k := Categorize(error);
      var r := FormatErrorMessage(error);
      k in {AudioError, ImageError, Generic} ==>
        |PrefixOf(k)| <= |r| && r[..|PrefixOf(k)|] == PrefixOf(k) && r[|PrefixOf(k)|..] == error
  {
    var k := Categorize(error);
    var r := FormatErrorMessage(error);
    if k in {AudioError, ImageError, Generic} {
      assert r == PrefixOf(k) + error;
      assert (PrefixOf(k) + error)[|PrefixOf(k)|..] == error;
    }
  }

  /** Two messages with the same kind among the first three display the same text. */
  lemma FixedTextsForget(a: string, b: string)
    requires Categorize(a) == Categorize(b) && Categorize(a) in {GpuMemory, ModelFiles, Dependencies}
    ensures FormatErrorMessage(a) == FormatErrorMessage(b)
  {
  }
}
