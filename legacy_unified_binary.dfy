// The older post-build script of the pio tree
// (EleksTubeHAX_pio/script_build_unified_binary.py): it builds the filesystem
// image, then the esptool merge-bin command from FLASH_EXTRA_IMAGES strings of
// the form "<offset> <file>" followed by the application image.

module LegacyUnifiedBinary {
  import opened Wrappers
  import opened Ascii
  import UnifiedBinary

  /** What escapes from `esp32_create_combined_bin`. */
  datatype LegacyError =
    | SectionWithoutSpace(section: string) // ValueError of the two-value unpack
    | AppOffsetMissing                     // TypeError of ' '.join with None in the list

  /** The values the action reads from the build host. */
  datatype LegacyEnv = LegacyEnv(
    appOffset: Option<string>,  // ESP32_APP_OFFSET
    objectFile: string,         // $BUILD_DIR/FW_${PROGNAME}.bin
    firmwareName: string,       // $BUILD_DIR/${PROGNAME}.bin
    chip: string,
    flashSize: Option<string>,  // upload.flash_size, if set
    flashMode: string,
    flashFreq: string)

  /** Index of the first space, or |s| if there is none. */
  function FirstSpace(s: string): (i: nat)
    ensures i <= |s|
    ensures forall j :: 0 <= j < i ==> s[j] != ' '
    ensures i < |s| ==> s[i] == ' '
  {
    FirstIndexOf(s, ' ')
  }

  /** `sect_adr, sect_file = section.split(" ", 1)` */
  function SplitSection(s: string): Option<(string, string)>
  {
    var i := FirstSpace(s);
    if i == |s| then None else Some((s[..i], s[i + 1..]))
  }

  /**
   * The unpack fails exactly for a string without a space; otherwise the
   * address is the text before the first space and the file is all the rest.
   */
  lemma SplitSectionSpec(s: string)
    ensures SplitSection(s).None? <==> ' ' !in s
    ensures SplitSection(s).Some? ==>
      var (adr, file) := SplitSection(s).value;
      ' ' !in adr && s == adr + " " + file
  {
    var i := FirstSpace(s);
    if i < |s| {
      assert s == s[..i] + " " + s[i + 1..];
      assert ' ' !in s[..i] by {
        forall j | 0 <= j < i ensures s[..i][j] != ' ' { }
      }
    } else {
      assert forall c :: c in s ==> c != ' ';
    }
  }

  /** Joining an address without spaces to any file name splits back into the two. */
  lemma SplitSectionJoin(adr: string, file: string)
    requires ' ' !in adr
    ensures SplitSection(adr + " " + file) == Some((adr, file))
  {
    var s := adr + " " + file;
    FirstSpaceAfter(adr, file);
    assert s[..|adr|] == adr;
    assert s[|adr| + 1..] == file;
  }

  lemma FirstSpaceAfter(adr: string, file: string)
    requires ' ' !in adr
    ensures FirstSpace(adr + " " + file) == |adr|
  {
    var s := adr + " " + file;
    assert forall j :: 0 <= j < |adr| ==> s[j] == adr[j];
    FirstIndexAt(s, ' ', |adr|);
  }

  function FlashSizeOf(setting: Option<string>): string
  {
    if setting.None? then "4MB" else setting.value
  }

  /** The fixed head of the command vector. */
  function Header(env: LegacyEnv): (cmd: seq<string>)
    ensures |cmd| == 11
  {
    ["--chip", env.chip, "merge-bin", "-o", env.objectFile, "--flash-mode", env.flashMode,
     "--flash-freq", env.flashFreq, "--flash-size", FlashSizeOf(env.flashSize)]
  }

  /** The section pairs in input order, or the first section that does not split. */
  function SectionArgs(sections: seq<string>): Result<seq<string>, LegacyError>
  {
    if sections == [] then Ok([])
    else
      match SectionArgs(sections[..|sections| - 1])
      case Err(e) => Err(e)
      case Ok(args) =>
        var last := sections[|sections| - 1];
        match SplitSection(last)
        case None => Err(SectionWithoutSpace(last))
        case Some(p) => Ok(args + [p.0, p.1])
  }

  /** The finished command vector, or the exception the action raises. */
  function Command(env: LegacyEnv, sections: seq<string>): Result<seq<string>, LegacyError>
  {
    match SectionArgs(sections)
    case Err(e) => Err(e)
    case Ok(args) =>
      if env.appOffset.None? then Err(AppOffsetMissing)
      else Ok(Header(env) + args + [env.appOffset.value, env.firmwareName])
  }

  /** Every section contributes exactly two entries when none of them fails. */
  lemma {:induction false} SectionArgsLength(sections: seq<string>)
    requires SectionArgs(sections).Ok?
    ensures |SectionArgs(sections).value| == 2 * |sections|
    decreases |sections|
  {
    if sections != [] {
      SectionArgsLength(sections[..|sections| - 1]);
    }
  }

  /** The sections fail exactly when one of them holds no space. */
  lemma {:induction false} SectionArgsFails(sections: seq<string>)
    ensures SectionArgs(sections).Err? <==> exists k :: 0 <= k < |sections| && ' ' !in sections[k]
    decreases |sections|
  {
    if sections != [] {
      var n := |sections| - 1;
      SectionArgsFails(sections[..n]);
      SplitSectionSpec(sections[n]);
      if SectionArgs(sections[..n]).Err? {
        var k :| 0 <= k < n && ' ' !in sections[..n][k];
        assert ' ' !in sections[k];
      } else if ' ' !in sections[n] {
      } else {
        forall k | 0 <= k < |sections| ensures ' ' in sections[k] {
          if k < n {
            assert sections[k] == sections[..n][k];
          }
        }
      }
    }
  }

  /** Section k's address and file sit at positions 2k and 2k+1. */
  lemma {:induction false} SectionArgsAt(sections: seq<string>, k: nat)
    requires SectionArgs(sections).Ok? && k < |sections|
    ensures SplitSection(sections[k]).Some?
    ensures |SectionArgs(sections).value| == 2 * |sections|
    ensures SectionArgs(sections).value[2 * k] == SplitSection(sections[k]).value.0
    ensures SectionArgs(sections).value[2 * k + 1] == SplitSection(sections[k]).value.1
    decreases |sections|
  {
    var n := |sections| - 1;
    SectionArgsLength(sections);
    SectionArgsLength(sections[..n]);
    if k < n {
      SectionArgsAt(sections[..n], k);
    }
  }

  /**
   * A successful command has 11 + 2(n+1) entries: the header, the n section
   * pairs in input order, and the application pair always last.
   */
  lemma CommandLayout(env: LegacyEnv, sections: seq<string>)
    requires Command(env, sections).Ok?
    ensures var cmd := Command(env, sections).value;
      && |cmd| == 11 + 2 * (|sections| + 1)
      && cmd[..11] == Header(env)
      && cmd[|cmd| - 2..] == [env.appOffset.value, env.firmwareName]
      && forall k :: 0 <= k < |sections| ==>
           SplitSection(sections[k]).Some? &&
           cmd[11 + 2 * k] == SplitSection(sections[k]).value.0 &&
           cmd[12 + 2 * k] == SplitSection(sections[k]).value.1
  {
    var args := SectionArgs(sections).value;
    SectionArgsLength(sections);
    forall k | 0 <= k < |sections|
      ensures SplitSection(sections[k]).Some?
      ensures args[2 * k] == SplitSection(sections[k]).value.0
      ensures args[2 * k + 1] == SplitSection(sections[k]).value.1
    {
      SectionArgsAt(sections, k);
    }
  }

  /** `esp32_create_combined_bin`: extend the command section by section, then add the app. */
  method CreateCombinedBin(env: LegacyEnv, sections: seq<string>) returns (r: Result<seq<string>, LegacyError>)
    ensures r == Command(env, sections)
  {
    var cmd := Header(env);
    var i := 0;
    while i < |sections|
      invariant 0 <= i <= |sections|
      invariant SectionArgs(sections[..i]).Ok?
      invariant cmd == Header(env) + SectionArgs(sections[..i]).value
    {
      assert sections[..i + 1][..i] == sections[..i];
      var split := SplitSection(sections[i]);
      if split.None? {
        PrefixFailure(sections, i + 1);
        return Err(SectionWithoutSpace(sections[i]));
      }
      cmd := cmd + [split.value.0, split.value.1];
      i := i + 1;
    }
    assert sections[..i] == sections;
    if env.appOffset.None? {
      return Err(AppOffsetMissing);
    }
    cmd := cmd + [env.appOffset.value, env.firmwareName];
    return Ok(cmd);
  }

  /** A failure within a prefix is the failure of the whole list. */
  lemma {:induction false} PrefixFailure(sections: seq<string>, i: nat)
    requires i <= |sections| && SectionArgs(sections[..i]).Err?
    ensures SectionArgs(sections) == SectionArgs(sections[..i])
    decreases |sections| - i
  {
    if i < |sections| {
      assert sections[..i + 1][..i] == sections[..i];
      PrefixFailure(sections, i + 1);
    } else {
      assert sections[..i] == sections;
    }
  }

  /** `pio_run_buildfs`: any failure of the subprocess ends the script with status 1. */
  function BuildfsOutcome(status: int): (o: UnifiedBinary.Outcome)
    ensures o == UnifiedBinary.Exited(1) <==> status != 0
    ensures o == UnifiedBinary.Finished <==> status == 0
  {
    if status != 0 then UnifiedBinary.Exited(1) else UnifiedBinary.Finished
  }

  /** The buildfs command: the newer script's command without an environment name. */
  function BuildfsCommand(python: string): (cmd: seq<string>)
    ensures cmd == UnifiedBinary.BuildfsCommand(python, "")
  {
    [python, "-m", "platformio", "run", "--target", "buildfs"]
  }
}
