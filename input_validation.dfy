/** The upload checks of the input processor: a ladder of tests on the path, the file's presence
    and what the image or audio library reads from it, returning a verdict and a message; and the
    guard that turns a failed verdict into the processing error. */
module InputValidation {
  import opened Wrappers
  import opened Text

  /** The result of a validation: whether the file is accepted and the message shown. */
  datatype Verdict = Verdict(valid: bool, message: string)

  // ---------------------------------------------------------------------------------------------
  // File suffixes
  // ---------------------------------------------------------------------------------------------

  /** Python's str.rfind for one character: the last position holding `c`. */
  function LastIndexOf(s: string, c: char): (r: Option<nat>)
    ensures r.None? <==> c !in s
    ensures r.Some? ==> r.value < |s| && s[r.value] == c && c !in s[r.value + 1..]
  {
    if s == [] then None
    else if s[|s| - 1] == c then Some(|s| - 1)
    else
      var r := LastIndexOf(s[..|s| - 1], c);
      assert s == s[..|s| - 1] + [s[|s| - 1]];
      r
  }

  /** The final component of a path (pathlib's `name`): what follows the last '/'. */
  function FinalComponent(path: string): (name: string)
    ensures '/' !in name
    ensures |name| <= |path| && path[|path| - |name|..] == name
  {
    match LastIndexOf(path, '/')
    case None => path
    case Some(i) => path[i + 1..]
  }

  /** pathlib's `suffix`: from the last '.' of the final component, provided that dot is neither
      its first nor its last character; otherwise empty. */
  function Suffix(path: string): (ext: string)
  {
    var name := FinalComponent(path);
    match LastIndexOf(name, '.')
    case None => ""
    case Some(i) => if 0 < i < |name| - 1 then name[i..] else ""
  }

  /** A suffix is empty, or a dot followed by at least one character that is neither a dot nor a
      slash, and the path ends with it. */
  lemma SuffixShape(path: string)
    ensures var ext := Suffix(path);
      ext == "" ||
      (&& 2 <= |ext| <= |path| && ext[0] == '.' && '.' !in ext[1..] && '/' !in ext
       && path[|path| - |ext|..] == ext)
  {
    var name := FinalComponent(path);
    var ext := Suffix(path);
    if ext != "" {
      var i := LastIndexOf(name, '.').value;
      assert ext == name[i..];
      assert ext[1..] == name[i + 1..];
      assert forall k :: 0 <= k < |ext| ==> ext[k] == name[i + k];
      assert path[|path| - |ext|..] == name[|name| - |ext|..];
    }
  }

  /** The position of a character is its last one when the character does not occur after it. */
  lemma LastIndexAt(s: string, c: char, i: nat)
    requires i < |s| && s[i] == c && c !in s[i + 1..]
    ensures LastIndexOf(s, c) == Some(i)
  {
  }

  /** Naming a file `stem.e` in any directory gives it the suffix `.e`, whatever the stem holds
      (dots included), as long as `e` is non-empty and has no dot or slash. */
  lemma SuffixOfName(dir: string, stem: string, e: string)
    requires dir == [] || dir[|dir| - 1] == '/'
    requires stem != [] && '/' !in stem
    requires e != [] && '.' !in e && '/' !in e
    ensures Suffix(dir + stem + "." + e) == "." + e
  {
    var name := stem + "." + e;
    assert dir + stem + "." + e == dir + name;
    assert name[|stem|] == '.';
    assert name[|stem|..] == "." + e;
    assert name[|stem| + 1..] == e;
    assert '/' !in name by {
      forall k | 0 <= k < |name| ensures name[k] != '/' {
        if k < |stem| { assert name[k] == stem[k]; }
        else if k > |stem| { assert name[k] == e[k - |stem| - 1]; }
      }
    }
    SuffixOfFinal(dir, name, |stem|);
  }

  /** With the last dot of the final component strictly inside it, the suffix runs from there. */
  lemma SuffixOfFinal(dir: string, name: string, i: nat)
    requires dir == [] || dir[|dir| - 1] == '/'
    requires '/' !in name
    requires 0 < i < |name| - 1 && name[i] == '.' && '.' !in name[i + 1..]
    ensures Suffix(dir + name) == name[i..]
  {
    FinalComponentOf(dir, name);
    LastIndexAt(name, '.', i);
  }

  /** The final component of a path whose last part follows a slash (or is the whole path) is
      that last part. */
  lemma FinalComponentOf(dir: string, name: string)
    requires dir == [] || dir[|dir| - 1] == '/'
    requires '/' !in name
    ensures FinalComponent(dir + name) == name
  {
    var path := dir + name;
    if dir == [] {
      assert path == name;
    } else {
      assert path[|dir| - 1] == '/';
      assert path[|dir|..] == name;
      LastIndexAt(path, '/', |dir| - 1);
    }
  }

  /** The extension as compared: the suffix in lower case. */
  function Extension(path: string): string {
    Lower(Suffix(path))
  }

  /** `listing` enumerates `formats`, each once, in some order: Python joins the members of a set
      in its iteration order, which the program does not choose. */
  ghost predicate IsListing(listing: seq<string>, formats: set<string>) {
    |listing| == |formats| && forall x :: x in listing <==> x in formats
  }

  function UnsupportedText(kind: string, ext: string, listing: seq<string>): string {
    "Unsupported " + kind + " format: " + ext + ". Supported formats: " + Join(listing, ", ")
  }

  // ---------------------------------------------------------------------------------------------
  // Images
  // ---------------------------------------------------------------------------------------------

  const ImageFormats: set<string> := {".jpg", ".jpeg", ".png", ".bmp", ".tiff", ".webp"}
  const MaxImageWidth: nat := 2048
  const MaxImageHeight: nat := 2048
  const MinImageSide: nat := 64

  /** What the image library reports about an opening file: its size, and the message of the
      exception raised when converting it to RGB, if any. */
  datatype Picture = Picture(width: nat, height: nat, convertError: Option<string>)

  /** The checks made on an opened image, in order: the upper bounds, the lower bounds, then the
      conversion to RGB. */
  function PictureVerdict(p: Picture): Verdict {
    if p.width > MaxImageWidth || p.height > MaxImageHeight then
      Verdict(false, "Image too large. Maximum size: 2048x2048")
    else if p.width < MinImageSide || p.height < MinImageSide then
      Verdict(false, "Image too small. Minimum size: 64x64")
    else match p.convertError
      case Some(e) => Verdict(false, "Invalid image file: " + e)
      case None => Verdict(true, "Valid image")
  }

  /** The ladder of validate_image once the extension is known: `present` is the file-system test
      and `opening` what opening the file gives, the picture or the message of the exception
      raised. */
  function ImageVerdict(present: bool, ext: string, opening: Result<Picture>, listing: seq<string>): Verdict
    requires IsListing(listing, ImageFormats)
  {
    if !present then Verdict(false, "Image file does not exist")
    else if ext !in ImageFormats then Verdict(false, UnsupportedText("image", ext, listing))
    else match opening
      case Failure(e) => Verdict(false, "Invalid image file: " + e)
      case Success(p) => PictureVerdict(p)
  }

  /** validate_image: the ladder applied to the lower-cased suffix of the path. */
  function ValidateImage(path: string, present: bool, opening: Result<Picture>, listing: seq<string>): Verdict
    requires IsListing(listing, ImageFormats)
  {
    ImageVerdict(present, Extension(path), opening, listing)
  }

  /** An opened image passes exactly when both sides lie between 64 and 2048 pixels and it converts
      to RGB. Size is looked at before conversion, and the upper bounds before the lower ones: an
      image too large on one side and too small on the other is reported as too large. */
  lemma PictureVerdictIff(p: Picture)
    ensures var v := PictureVerdict(p);
      && (v.valid <==>
            && MinImageSide <= p.width <= MaxImageWidth && MinImageSide <= p.height <= MaxImageHeight
            && p.convertError.None?)
      && (v.valid <==> v.message == "Valid image")
      && ((p.width > MaxImageWidth || p.height > MaxImageHeight) ==>
            v.message == "Image too large. Maximum size: 2048x2048")
      && ((p.width <= MaxImageWidth && p.height <= MaxImageHeight && (p.width < MinImageSide || p.height < MinImageSide)) ==>
            v.message == "Image too small. Minimum size: 64x64")
  {
    var v := PictureVerdict(p);
    if !v.valid {
      assert v.message[0] != 'V';
    }
  }

  /** The ladder accepts exactly when the file is there, the extension is supported, the file opens
      and the opened image passes; the content of the file is never consulted when it is missing or
      its extension is not supported. */
  lemma ImageVerdictIff(present: bool, ext: string, opening: Result<Picture>, listing: seq<string>)
    requires IsListing(listing, ImageFormats)
    ensures var v := ImageVerdict(present, ext, opening, listing);
      && (v.valid <==> present && ext in ImageFormats && opening.Success? && PictureVerdict(opening.value).valid)
      && (v.valid <==> v.message == "Valid image")
      && (!present || ext !in ImageFormats ==>
            forall other :: ImageVerdict(present, ext, other, listing) == v)
  {
    var v := ImageVerdict(present, ext, opening, listing);
    if opening.Success? {
      PictureVerdictIff(opening.value);
    }
    if !v.valid {
      assert v.message[0] != 'V';
    }
  }

  /** An image file is accepted exactly when it exists, its lower-cased suffix is a supported
      format, it opens, both sides lie between 64 and 2048 pixels, and it converts to RGB. */
  lemma ImageValidIff(path: string, present: bool, opening: Result<Picture>, listing: seq<string>)
    requires IsListing(listing, ImageFormats)
    ensures var v := ValidateImage(path, present, opening, listing);
      && (v.valid <==>
            && present && Extension(path) in ImageFormats && opening.Success?
            && MinImageSide <= opening.value.width <= MaxImageWidth
            && MinImageSide <= opening.value.height <= MaxImageHeight
            && opening.value.convertError.None?)
      && (v.valid <==> v.message == "Valid image")
  {
    ImageVerdictIff(present, Extension(path), opening, listing);
    if opening.Success? {
      PictureVerdictIff(opening.value);
    }
  }

  /** The extension test ignores case: `photo.PNG` and `photo.png` get the same verdict. */
  lemma ImageFormatIgnoresCase(dir: string, stem: string, e: string, f: string, opening: Result<Picture>, listing: seq<string>)
    requires IsListing(listing, ImageFormats)
    requires dir == [] || dir[|dir| - 1] == '/'
    requires stem != [] && '/' !in stem
    requires e != [] && '.' !in e && '/' !in e
    requires f != [] && '.' !in f && '/' !in f
    requires Lower(e) == Lower(f)
    ensures ValidateImage(dir + stem + "." + e, true, opening, listing)
         == ValidateImage(dir + stem + "." + f, true, opening, listing)
  {
    SuffixOfName(dir, stem, e);
    SuffixOfName(dir, stem, f);
    LowerDotted(e);
    LowerDotted(f);
  }

  lemma LowerDotted(e: string)
    ensures Lower("." + e) == "." + Lower(e)
  {
    var a := Lower("." + e);
    var b := "." + Lower(e);
    forall k | 0 <= k < |a| ensures a[k] == b[k] {
      LowerAt("." + e, k);
      if k > 0 {
        LowerAt(e, k - 1);
        assert ("." + e)[k] == e[k - 1];
      }
    }
    assert a == b;
  }

  // ---------------------------------------------------------------------------------------------
  // Audio
  // ---------------------------------------------------------------------------------------------

  const AudioFormats: set<string> := {".wav", ".mp3", ".m4a", ".flac", ".aac", ".ogg"}
  const MaxAudioSeconds: nat := 60
  const MinAudioSeconds: real := 0.5
  const SilenceThreshold: real := 0.000001

  /** What the audio library loads from a file at its native rate: the samples and the rate. */
  datatype Recording = Recording(samples: seq<real>, rate: int)

  function Abs(x: real): real { if x < 0.0 then -x else x }

  /** np.max(np.abs(samples)). */
  function Peak(samples: seq<real>): (m: real)
    requires samples != []
  {
    if |samples| == 1 then Abs(samples[0])
    else
      var rest := Peak(samples[..|samples| - 1]);
      var last := Abs(samples[|samples| - 1]);
      if last > rest then last else rest
  }

  /** The peak is the largest magnitude: no sample exceeds it and some sample reaches it. */
  lemma {:induction false} PeakIsMaximum(samples: seq<real>)
    requires samples != []
    ensures forall i :: 0 <= i < |samples| ==> Abs(samples[i]) <= Peak(samples)
    ensures exists i :: 0 <= i < |samples| && Abs(samples[i]) == Peak(samples)
    decreases |samples|
  {
    if |samples| == 1 {
      assert Abs(samples[0]) == Peak(samples);
    } else {
      var init := samples[..|samples| - 1];
      PeakIsMaximum(init);
      var i :| 0 <= i < |init| && Abs(init[i]) == Peak(init);
      assert forall k :: 0 <= k < |init| ==> init[k] == samples[k];
      if Abs(samples[|samples| - 1]) > Peak(init) {
        assert Abs(samples[|samples| - 1]) == Peak(samples);
      } else {
        assert Abs(samples[i]) == Peak(samples);
      }
    }
  }

  /** A recording counts as silent exactly when every sample's magnitude is below the threshold. */
  lemma SilentIffAllQuiet(samples: seq<real>)
    requires samples != []
    ensures Peak(samples) < SilenceThreshold <==> forall i :: 0 <= i < |samples| ==> Abs(samples[i]) < SilenceThreshold
  {
    PeakIsMaximum(samples);
  }

  /** Python's `len(audio) / sr`, or the message of the exception a zero rate raises. */
  function Duration(r: Recording): (d: Result<real>)
    ensures d.Success? <==> r.rate != 0
    ensures d.Success? ==> d.value * (r.rate as real) == |r.samples| as real
  {
    if r.rate == 0 then Failure("division by zero")
    else Success((|r.samples| as real) / (r.rate as real))
  }

  /** The checks made on a loaded recording, in order: the duration (whose division fails on a
      zero rate), the upper bound, the lower bound, then silence. */
  function RecordingVerdict(r: Recording): Verdict {
    match Duration(r)
    case Failure(e) => Verdict(false, "Invalid audio file: " + e)
    case Success(d) =>
      if d > MaxAudioSeconds as real then Verdict(false, "Audio too long. Maximum duration: 60 seconds")
      else if d < MinAudioSeconds then Verdict(false, "Audio too short. Minimum duration: 0.5 seconds")
      else
        EmptyIsShort(r);
        if Peak(r.samples) < SilenceThreshold then Verdict(false, "Audio appears to be silent")
        else Verdict(true, "Valid audio")
  }

  /** A recording with no samples has duration 0 whatever its rate, so it is always too short. */
  lemma EmptyIsShort(r: Recording)
    requires r.rate != 0 && Duration(r).Success? && Duration(r).value >= MinAudioSeconds
    ensures r.samples != []
  {
  }

  /** The ladder of validate_audio once the extension is known: `present` is the file-system test
      and `loaded` what loading the file gives, the recording or the message of the exception
      raised. */
  function AudioVerdict(present: bool, ext: string, loaded: Result<Recording>, listing: seq<string>): Verdict
    requires IsListing(listing, AudioFormats)
  {
    if !present then Verdict(false, "Audio file does not exist")
    else if ext !in AudioFormats then Verdict(false, UnsupportedText("audio", ext, listing))
    else match loaded
      case Failure(e) => Verdict(false, "Invalid audio file: " + e)
      case Success(r) => RecordingVerdict(r)
  }

  /** validate_audio: the ladder applied to the lower-cased suffix of the path. */
  function ValidateAudio(path: string, present: bool, loaded: Result<Recording>, listing: seq<string>): Verdict
    requires IsListing(listing, AudioFormats)
  {
    AudioVerdict(present, Extension(path), loaded, listing)
  }

  /** A loaded recording passes exactly when its rate is non-zero, it lasts between half a second
      and a minute, and some sample reaches the silence threshold. A zero rate is reported with the
      division error before the length is looked at, and the length before silence. */
  lemma RecordingVerdictIff(r: Recording)
    ensures var v := RecordingVerdict(r);
      && (v.valid <==>
            && r.rate != 0
            && MinAudioSeconds <= Duration(r).value <= MaxAudioSeconds as real
            && exists i :: 0 <= i < |r.samples| && Abs(r.samples[i]) >= SilenceThreshold)
      && (v.valid <==> v.message == "Valid audio")
      && (r.rate == 0 ==> v.message == "Invalid audio file: division by zero")
  {
    var v := RecordingVerdict(r);
    if !v.valid {
      RecordingRejectionText(r);
    }
    if r.rate != 0 && MinAudioSeconds <= Duration(r).value <= MaxAudioSeconds as real {
      EmptyIsShort(r);
      SilentIffAllQuiet(r.samples);
    }
  }

  lemma RecordingRejectionText(r: Recording)
    requires !RecordingVerdict(r).valid
    ensures RecordingVerdict(r).message != "Valid audio"
  {
    var m := RecordingVerdict(r).message;
    match Duration(r)
    case Failure(e) =>
      assert m == "Invalid audio file: " + e;
      assert m[0] == 'I';
    case Success(d) =>
      if d > MaxAudioSeconds as real {
        assert m == "Audio too long. Maximum duration: 60 seconds";
      } else if d < MinAudioSeconds {
        assert m == "Audio too short. Minimum duration: 0.5 seconds";
      } else {
        assert m == "Audio appears to be silent";
      }
  }

  /** A recording longer than a minute is reported as too long, silent or not. */
  lemma AudioLengthBeforeSilence(r: Recording)
    requires r.rate > 0 && |r.samples| as real > 60.0 * (r.rate as real)
    ensures RecordingVerdict(r).message == "Audio too long. Maximum duration: 60 seconds"
  {
    var d := (|r.samples| as real) / (r.rate as real);
    assert d * (r.rate as real) == |r.samples| as real;
    assert d > 60.0;
  }

  /** The ladder accepts exactly when the file is there, the extension is supported, the file loads
      and the recording passes; the content of the file is never consulted when it is missing or
      its extension is not supported. */
  lemma AudioVerdictIff(present: bool, ext: string, loaded: Result<Recording>, listing: seq<string>)
    requires IsListing(listing, AudioFormats)
    ensures var v := AudioVerdict(present, ext, loaded, listing);
      && (v.valid <==> present && ext in AudioFormats && loaded.Success? && RecordingVerdict(loaded.value).valid)
      && (v.valid <==> v.message == "Valid audio")
      && (!present || ext !in AudioFormats ==>
            forall other :: AudioVerdict(present, ext, other, listing) == v)
  {
    var v := AudioVerdict(present, ext, loaded, listing);
    if loaded.Success? {
      RecordingVerdictIff(loaded.value);
    } else if !v.valid {
      assert v.message[0] != 'V';
    }
  }

  /** An audio file is accepted exactly when it exists, its lower-cased suffix is a supported
      format, it loads at a non-zero rate, it lasts between half a second and a minute, and some
      sample reaches the silence threshold. */
  lemma AudioValidIff(path: string, present: bool, loaded: Result<Recording>, listing: seq<string>)
    requires IsListing(listing, AudioFormats)
    ensures var v := ValidateAudio(path, present, loaded, listing);
      && (v.valid <==>
            && present && Extension(path) in AudioFormats && loaded.Success? && loaded.value.rate != 0
            && MinAudioSeconds <= Duration(loaded.value).value <= MaxAudioSeconds as real
            && exists i :: 0 <= i < |loaded.value.samples| && Abs(loaded.value.samples[i]) >= SilenceThreshold)
      && (v.valid <==> v.message == "Valid audio")
  {
    AudioVerdictIff(present, Extension(path), loaded, listing);
    if loaded.Success? {
      RecordingVerdictIff(loaded.value);
    }
  }

  // ---------------------------------------------------------------------------------------------
  // The processing guard
  // ---------------------------------------------------------------------------------------------

  /** The exception message process_image / process_single_audio end with when validation fails:
      the ValueError raised with the verdict's message is caught by the surrounding handler and
      raised again behind the `kind processing failed: ` prefix. None: processing goes on. */
  function GuardError(kind: string, v: Verdict): (r: Option<string>)
  {
    if v.valid then None else Some(kind + " processing failed: " + v.message)
  }

  function ImageGuard(v: Verdict): Option<string> { GuardError("Image", v) }

  function AudioGuard(v: Verdict): Option<string> { GuardError("Audio", v) }

  /** Processing stops exactly on a failed verdict, and the verdict's message survives intact
      behind the prefix. */
  lemma GuardKeepsMessage(kind: string, v: Verdict)
    ensures GuardError(kind, v).Some? <==> !v.valid
    ensures var prefix := kind + " processing failed: ";
      GuardError(kind, v).Some? ==>
        && |prefix| <= |GuardError(kind, v).value|
        && GuardError(kind, v).value[..|prefix|] == prefix
        && GuardError(kind, v).value[|prefix|..] == v.message
  {
    var prefix := kind + " processing failed: ";
    if !v.valid {
      assert GuardError(kind, v).value == prefix + v.message;
    }
  }

  /** Processing of an image goes on exactly when it is valid, and stops with the validation
      message behind the image prefix otherwise. */
  lemma ProcessImageGuard(path: string, present: bool, opening: Result<Picture>, listing: seq<string>)
    requires IsListing(listing, ImageFormats)
    ensures var v := ValidateImage(path, present, opening, listing);
      && (ImageGuard(v).None? <==>
            && present && Extension(path) in ImageFormats && opening.Success?
            && MinImageSide <= opening.value.width <= MaxImageWidth
            && MinImageSide <= opening.value.height <= MaxImageHeight
            && opening.value.convertError.None?)
      && (ImageGuard(v).Some? ==> ImageGuard(v).value[|"Image processing failed: "|..] == v.message)
  {
    ImageValidIff(path, present, opening, listing);
    GuardKeepsMessage("Image", ValidateImage(path, present, opening, listing));
  }

  /** Processing of an audio file goes on exactly when it is valid, and stops with the validation
      message behind the audio prefix otherwise. */
  lemma ProcessAudioGuard(path: string, present: bool, loaded: Result<Recording>, listing: seq<string>)
    requires IsListing(listing, AudioFormats)
    ensures var v := ValidateAudio(path, present, loaded, listing);
      && (AudioGuard(v).None? <==>
            && present && Extension(path) in AudioFormats && loaded.Success? && loaded.value.rate != 0
            && MinAudioSeconds <= Duration(loaded.value).value <= MaxAudioSeconds as real
            && exists i :: 0 <= i < |loaded.value.samples| && Abs(loaded.value.samples[i]) >= SilenceThreshold)
      && (AudioGuard(v).Some? ==> AudioGuard(v).value[|"Audio processing failed: "|..] == v.message)
  {
    AudioValidIff(path, present, loaded, listing);
    GuardKeepsMessage("Audio", ValidateAudio(path, present, loaded, listing));
  }
}
