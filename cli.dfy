/**
 * The command-line driver (2test.cpp): help first, then the input file's
 * extension decides the reader, then the `-bs` and `-vs` strategy codes are
 * range-checked and stored in the parameter object before the engine runs.
 */
module Cli {
  import opened Wrappers
  import opened Lp
  import opened Util

  /** `std::string::npos`, the largest `size_t`. */
  const Npos: int := 0xFFFF_FFFF_FFFF_FFFF

  /** `size_t` arithmetic wraps modulo 2^64. */
  const SizeModulus: int := 0x1_0000_0000_0000_0000

  /** The sequence read back to front. */
  function Reversed<T>(s: seq<T>): (r: seq<T>)
    ensures |r| == |s| && forall i :: 0 <= i < |s| ==> r[i] == s[|s| - 1 - i]
  {
    seq(|s|, i requires 0 <= i < |s| => s[|s| - 1 - i])
  }

  /** The position of the last '.' among the first `k` characters of `s`, or -1. */
  function LastDotBefore(s: string, k: nat): (i: int)
    requires k <= |s|
    ensures -1 <= i < k
    ensures i >= 0 ==> s[i] == '.'
    ensures forall x :: i < x < k ==> s[x] != '.'
  {
    if k == 0 then -1
    else if s[k - 1] == '.' then k - 1
    else LastDotBefore(s, k - 1)
  }

  /** The position of the last '.' in `s`, or -1 when there is none. */
  function LastDot(s: string): (i: int)
    ensures -1 <= i < |s|
    ensures i == -1 <==> '.' !in s
    ensures i >= 0 ==> s[i] == '.' && '.' !in s[i + 1..]
  {
    LastDotBefore(s, |s|)
  }

  /** A file name's extension: the suffix from its last '.' inclusive, empty when it has no '.'. */
  function Extension(fn: string): (ext: string)
    ensures ext == "" <==> '.' !in fn
    ensures ext != "" ==> ext[0] == '.' && '.' !in ext[1..]
    ensures |ext| <= |fn| && fn[|fn| - |ext|..] == ext
  {
    var i := LastDot(fn);
    if i < 0 then "" else fn[i..]
  }

  /** A name ending in '.' followed by dot-free text has exactly that ending as its extension. */
  lemma ExtensionOfName(base: string, ending: string)
    requires |ending| > 0 && ending[0] == '.' && '.' !in ending[1..]
    ensures Extension(base + ending) == ending
  {
    var fn := base + ending;
    assert fn[|base|] == '.';
    assert fn[|base| + 1..] == ending[1..];
    assert fn[|base|..] == ending;
  }

  /** `std::reverse` on a buffer. */
  method ReverseInPlace(a: array<char>)
    modifies a
    ensures a[..] == Reversed(old(a[..]))
  {
    var n := a.Length;
    var i := 0;
    while i < n / 2
      invariant 0 <= i <= n / 2
      invariant forall k :: 0 <= k < i ==> a[k] == old(a[n - 1 - k]) && a[n - 1 - k] == old(a[k])
      invariant forall k :: i <= k < n - i ==> a[k] == old(a[k])
    {
      a[i], a[n - 1 - i] := a[n - 1 - i], a[i];
      i := i + 1;
    }
  }

  /** `find(c)`: the first position of `c`, or `npos`. */
  method Find(a: array<char>, c: char) returns (pos: int)
    requires a.Length < Npos
    ensures pos == Npos <==> c !in a[..]
    ensures pos != Npos ==> 0 <= pos < a.Length && a[pos] == c && c !in a[..pos]
  {
    pos := 0;
    while pos < a.Length
      invariant 0 <= pos <= a.Length && c !in a[..pos]
    {
      if a[pos] == c {
        return;
      }
      pos := pos + 1;
    }
    assert a[..] == a[..pos];
    pos := Npos;
  }

  /** Reversing a reversed prefix gives back the matching suffix. */
  lemma ReversedPrefix(s: string, k: int)
    requires 0 <= k <= |s|
    ensures Reversed(Reversed(s)[..k]) == s[|s| - k..]
  {
  }

  /** The prefix length the driver keeps: `find` + 1 in `size_t`, clipped by `substr` to the length. */
  function KeptLength(pos: int, n: nat): (len: nat)
    requires 0 <= pos
  {
    var wrapped := (pos + 1) % SizeModulus;
    if wrapped > n then n else wrapped
  }

  /**
   * Given where `find` stops in the reversed name, the kept prefix reversed
   * back is the extension: a '.' found at `pos` is the last '.' of the name,
   * and `npos` keeps nothing.
   */
  lemma {:induction false} KeptPrefixIsExtension(fn: string, pos: int)
    requires |fn| < Npos
    requires pos == Npos <==> '.' !in Reversed(fn)
    requires pos != Npos ==> 0 <= pos < |fn| && Reversed(fn)[pos] == '.' && '.' !in Reversed(fn)[..pos]
    ensures Reversed(Reversed(fn)[..KeptLength(pos, |fn|)]) == Extension(fn)
  {
    var len := KeptLength(pos, |fn|);
    ReversedPrefix(fn, len);
    if pos == Npos {
      assert len == 0;
      assert '.' !in fn by {
        forall k | 0 <= k < |fn| ensures fn[k] != '.' {
          assert fn[k] == Reversed(fn)[|fn| - 1 - k];
        }
      }
    } else {
      assert len == pos + 1;
      var i := LastDot(fn);
      var j := |fn| - 1 - pos;
      assert fn[j] == '.';
      assert i == j;
    }
  }

  /**
   * The extension as the driver computes it: reverse the name, keep the
   * prefix up to and including the first '.' (`find` + 1, where `npos + 1`
   * wraps to 0), and reverse that back.
   */
  method FileSuffix(fn: string) returns (temp: string)
    requires |fn| < Npos
    ensures temp == Extension(fn)
  {
    var buf := new char[|fn|](i requires 0 <= i < |fn| => fn[i]);
    assert buf[..] == fn;
    ReverseInPlace(buf);
    var pos := Find(buf, '.');
    var len := (pos + 1) % SizeModulus;
    if len > buf.Length {
      len := buf.Length;
    }
    assert len == KeptLength(pos, |fn|);
    var part := new char[len](i requires 0 <= i < len reads buf => buf[i]);
    assert part[..] == Reversed(fn)[..len];
    ReverseInPlace(part);
    temp := part[..];
    KeptPrefixIsExtension(fn, pos);
  }

  /** The reader `initProblem` is asked to use. */
  datatype FileKind = LP | MPS

  /**
   * What the command line holds: the options present (`CMDOptionExists`), the
   * text following `-f`, and the integers `std::stoi` reads after `-bs` and `-vs`.
   */
  datatype CommandLine = CommandLine(present: set<string>, fileArg: string, bsArg: int, vsArg: int)

  /** How `main` ends: usage, no file, one of the three rejections, or a run of the engine. */
  datatype CliOutcome =
    | Usage
    | NoFile
    | UnrecognizedFiletype
    | BadNodeStrategy
    | BadVarStrategy
    | Launch(kind: FileKind, fileName: string, varStrat: VarStrat, nodeStrat: NodeStrat)

  /** `main`'s return value for each ending. */
  function ExitCode(o: CliOutcome): int
  {
    match o
    case UnrecognizedFiletype => -1
    case BadNodeStrategy => -1
    case BadVarStrategy => -1
    case _ => 0
  }

  predicate AskedForHelp(cmd: CommandLine)
  {
    "-h" in cmd.present || "--help" in cmd.present
  }

  predicate HasFile(cmd: CommandLine)
  {
    "-f" in cmd.present || "--file" in cmd.present
  }

  /** The reader an extension selects: only exactly ".lp" and ".mps" are recognised. */
  function KindOf(ext: string): (r: Option<FileKind>)
    ensures r == Some(LP) <==> ext == ".lp"
    ensures r == Some(MPS) <==> ext == ".mps"
    ensures r.None? <==> ext != ".lp" && ext != ".mps"
  {
    if ext == ".lp" then Some(LP) else if ext == ".mps" then Some(MPS) else None
  }

  /**
   * `main`'s decision: help before anything else, then the file option, the
   * extension, `-bs` (0 or 1) and `-vs` (0, 1 or 2), in that order; absent
   * strategy options keep VO and DFS.
   */
  function Decide(cmd: CommandLine): (o: CliOutcome)
  {
    if AskedForHelp(cmd) then Usage
    else if !HasFile(cmd) then NoFile
    else
      match KindOf(Extension(cmd.fileArg))
      case None => UnrecognizedFiletype
      case Some(kind) => Configure(cmd, kind)
  }

  /** The strategy options once the reader is chosen: `-bs` is checked before `-vs`. */
  function Configure(cmd: CommandLine, kind: FileKind): CliOutcome
  {
    var node := if "-bs" in cmd.present then NodeStratOfCode(cmd.bsArg) else Some(DFS);
    var vars := if "-vs" in cmd.present then VarStratOfCode(cmd.vsArg) else Some(VO);
    if node.None? then BadNodeStrategy
    else if vars.None? then BadVarStrategy
    else Launch(kind, cmd.fileArg, vars.value, node.value)
  }

  /**
   * `main` returns 0 exactly when it shows usage, finds no file option, or runs
   * the engine on a ".lp"/".mps" file with strategy codes in range.
   */
  lemma ExitCodeZeroIff(cmd: CommandLine)
    ensures ExitCode(Decide(cmd)) == 0 <==>
              || AskedForHelp(cmd)
              || !HasFile(cmd)
              || (&& (Extension(cmd.fileArg) == ".lp" || Extension(cmd.fileArg) == ".mps")
                  && ("-bs" in cmd.present ==> 0 <= cmd.bsArg <= 1)
                  && ("-vs" in cmd.present ==> 0 <= cmd.vsArg <= 2))
    ensures Decide(cmd).Launch? <==> ExitCode(Decide(cmd)) == 0 && !AskedForHelp(cmd) && HasFile(cmd)
  {
  }

  /** A launched run carries the codes it was given, or VO and DFS when they were absent. */
  lemma LaunchCarriesCodes(cmd: CommandLine)
    requires Decide(cmd).Launch?
    ensures NodeStratCode(Decide(cmd).nodeStrat) == if "-bs" in cmd.present then cmd.bsArg else 0
    ensures VarStratCode(Decide(cmd).varStrat) == if "-vs" in cmd.present then cmd.vsArg else 0
  {
  }

  /**
   * Any name ending in ".lp" is read as LP, and any ending in ".mps" as MPS,
   * whatever dots come before.
   */
  lemma {:induction false} KnownSuffixLaunches(base: string, cmd: CommandLine)
    requires !AskedForHelp(cmd) && HasFile(cmd) && "-bs" !in cmd.present && "-vs" !in cmd.present
    ensures cmd.fileArg == base + ".lp" ==> Decide(cmd) == Launch(LP, cmd.fileArg, VO, DFS)
    ensures cmd.fileArg == base + ".mps" ==> Decide(cmd) == Launch(MPS, cmd.fileArg, VO, DFS)
  {
    if cmd.fileArg == base + ".lp" {
      ExtensionOfName(base, ".lp");
    }
    if cmd.fileArg == base + ".mps" {
      ExtensionOfName(base, ".mps");
    }
  }

  /**
   * `main` after the help and verbosity options: extract the extension, load
   * the problem with the matching reader, build the parameter object and apply
   * `-bs` then `-vs` through its setters, each rejecting an out-of-range code.
   * Reading the file is the parameter `initProblem`.
   */
  method Drive(cmd: CommandLine, initProblem: (string, FileKind) -> Model) returns (code: int, outcome: CliOutcome)
    requires |cmd.fileArg| < Npos
    ensures outcome == Decide(cmd) && code == ExitCode(outcome)
  {
    if "-h" in cmd.present || "--help" in cmd.present {
      return 0, Usage;
    }
    if !("-f" in cmd.present || "--file" in cmd.present) {
      return 0, NoFile;
    }
    var fn := cmd.fileArg;
    var temp := FileSuffix(fn);
    var kind: FileKind;
    if temp == ".lp" {
      kind := LP;
    } else if temp == ".mps" {
      kind := MPS;
    } else {
      return -1, UnrecognizedFiletype;
    }
    var params := new ParameterObj(initProblem(fn, kind));
    code, outcome := ApplyOptions(cmd, kind, params);
  }

  /** The parameter object's setters driven by `-bs` then `-vs`; an out-of-range code ends `main`. */
  method ApplyOptions(cmd: CommandLine, kind: FileKind, params: ParameterObj) returns (code: int, outcome: CliOutcome)
    requires params.nodeStrat == DFS && params.varStrat == VO
    modifies params
    ensures outcome == Configure(cmd, kind) && code == ExitCode(outcome)
    ensures outcome.Launch? ==> params.varStrat == outcome.varStrat && params.nodeStrat == outcome.nodeStrat
  {
    if "-bs" in cmd.present {
      var opt := cmd.bsArg;
      if opt == 1 {
        params.SetNodeStrat(BEST);
      } else if opt == 0 {
        params.SetNodeStrat(DFS);
      } else {
        return -1, BadNodeStrategy;
      }
    }
    if "-vs" in cmd.present {
      var opt := cmd.vsArg;
      if opt == 1 {
        params.SetVarStrat(VFP);
      } else if opt == 2 {
        params.SetVarStrat(VGO);
      } else if opt == 0 {
        params.SetVarStrat(VO);
      } else {
        return -1, BadVarStrategy;
      }
    }
    return 0, Launch(kind, cmd.fileArg, params.varStrat, params.nodeStrat);
  }
}
