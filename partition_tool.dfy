/** The NVS partition helper script: the name of the generated binary, the argument
    vectors of the two tool invocations, and the choice between them. The interpreter
    path and IDF_PATH are inputs; the subprocesses themselves are not modelled. */
module PartitionTool {
  import opened Common

  const GEN_PATH: string := "nvs_flash/nvs_partition_generator/nvs_partition_gen.py"
  const PAR_PATH: string := "esptool_py/esptool/esptool.py"
  const PAR_OFFSET: nat := 0x10000
  const PARTITION_SIZE: string := "0x3000"

  /** os.path.join of two relative POSIX paths. */
  function PathJoin(a: string, b: string): string
  {
    if a == [] || a[|a| - 1] == '/' then a + b else a + "/" + b
  }

  /** The text os.path.expandvars puts in place of "$IDF_PATH": the variable's value when
      it is set, the reference itself otherwise. */
  function IdfPathText(idfPath: Option<string>): string
  {
    match idfPath
    case Some(p) => p
    case None => "$IDF_PATH"
  }

  /** IDF_COMP_PATH: "$IDF_PATH" and "components" are joined first and the variable is
      expanded afterwards, so the value is followed by "/components" whatever it ends with. */
  function IdfComponents(idfPath: Option<string>): (c: string)
    ensures c == IdfPathText(idfPath) + "/components"
  {
    ExpandIdfPath(PathJoin("$IDF_PATH", "components"), idfPath)
  }

  /** os.path.expandvars on a text that starts with "$IDF_PATH/" and holds no other
      variable reference. */
  function ExpandIdfPath(t: string, idfPath: Option<string>): string
    requires |t| >= 9 && t[..9] == "$IDF_PATH"
  {
    IdfPathText(idfPath) + t[9..]
  }

  function GenTool(idfPath: Option<string>): string { PathJoin(IdfComponents(idfPath), GEN_PATH) }
  function ParTool(idfPath: Option<string>): string { PathJoin(IdfComponents(idfPath), PAR_PATH) }

  /** The module-level argument prefixes. */
  function InvokeArgsG(python: string, idfPath: Option<string>): seq<string>
  {
    [python, GenTool(idfPath), "--input"]
  }

  function InvokeArgsF(python: string, idfPath: Option<string>): seq<string>
  {
    [python, ParTool(idfPath), "--port"]
  }

  /** The index of the first '.' of `s`, or |s| when there is none. */
  function FirstDot(s: string): (k: nat)
    ensures k <= |s| && '.' !in s[..k]
    ensures k < |s| ==> s[k] == '.'
  {
    if s == [] || s[0] == '.' then 0 else 1 + FirstDot(s[1..])
  }

  /** GeneratePartition's output name: the first piece of inputFile.split('.') plus ".bin". */
  function OutputName(inputFile: string): (out: string)
    ensures var k := FirstDot(inputFile); out == inputFile[..k] + ".bin" && '.' !in inputFile[..k]
  {
    inputFile[..FirstDot(inputFile)] + ".bin"
  }

  /** The output name keeps the input up to its first dot, so a dotted directory cuts the
      name short. */
  lemma OutputNameOfDottedDirectory()
    ensures OutputName("dir.v2/cfg.csv") == "dir.bin"
  {
    var d := "dir.v2/cfg.csv";
    assert d[0] == 'd' && d[1] == 'i' && d[2] == 'r' && d[3] == '.';
    assert FirstDot(d) == 3 by {
      assert d[1..][1..][1..][0] == '.';
    }
    assert d[..3] == "dir";
  }

  /** A name without a dot just gets ".bin" appended. */
  lemma OutputNameOfDotless(s: string)
    requires '.' !in s
    ensures OutputName(s) == s + ".bin"
  {
    FirstDotOfDotless(s);
    assert s[..|s|] == s;
  }

  /** Applying the rule to its own output changes nothing. */
  lemma OutputNameIdempotent(s: string)
    ensures OutputName(OutputName(s)) == OutputName(s)
  {
    var p := s[..FirstDot(s)];
    FirstDotOfDotless(p);
    FirstDotAfter(p, ".bin");
    assert (p + ".bin")[..|p|] == p;
  }

  lemma {:induction false} FirstDotOfDotless(s: string)
    requires '.' !in s
    ensures FirstDot(s) == |s|
  {
    if s != [] {
      assert '.' !in s[1..];
      FirstDotOfDotless(s[1..]);
    }
  }

  lemma {:induction false} FirstDotAfter(p: string, t: string)
    requires '.' !in p
    ensures FirstDot(p + t) == |p| + FirstDot(t)
  {
    if p != [] {
      assert (p + t)[1..] == p[1..] + t;
      assert '.' !in p[1..];
      FirstDotAfter(p[1..], t);
    } else {
      assert p + t == t;
    }
  }

  /** GeneratePartition's command line: the generator, the CSV, the output name and the
      partition size; the shared prefix is extended, not changed. */
  function GenerateArgv(python: string, idfPath: Option<string>, inputFile: string): (argv: seq<string>)
    ensures |argv| == 8 && argv[..3] == InvokeArgsG(python, idfPath)
    ensures argv[0] == python && argv[2] == "--input"
    ensures argv[1] == IdfPathText(idfPath) + "/components/" + GEN_PATH
    ensures argv[3..] == [inputFile, "--output", OutputName(inputFile), "--size", PARTITION_SIZE]
  {
    InvokeArgsG(python, idfPath) + [inputFile, "--output", OutputName(inputFile), "--size", PARTITION_SIZE]
  }

  /** FlashPartition's command line: esptool on `port`, writing `binary` at the offset,
      which str() renders in decimal. */
  function FlashArgv(python: string, idfPath: Option<string>, port: string, binary: string): (argv: seq<string>)
    ensures |argv| == 7 && argv[..3] == InvokeArgsF(python, idfPath)
    ensures argv[0] == python && argv[2] == "--port"
    ensures argv[1] == IdfPathText(idfPath) + "/components/" + PAR_PATH
    ensures argv[3..] == [port, "write_flash", NatToString(PAR_OFFSET), binary]
  {
    InvokeArgsF(python, idfPath) + [port, "write_flash", NatToString(PAR_OFFSET), binary]
  }

  /** The offset argument is "65536", the decimal form of 0x10000. */
  lemma FlashOffsetIsDecimal()
    ensures NatToString(PAR_OFFSET) == "65536"
  {
    assert NatToString(6) == "6";
    assert NatToString(65) == "65";
    assert NatToString(655) == "655";
    assert NatToString(6553) == "6553";
  }

  /** The parsed command line. */
  datatype Command = Generate(csv: string) | Flash(port: string, binary: string) | NoCommand

  /** The one invocation main() makes, if any. */
  datatype Invocation = Run(argv: seq<string>) | NoRun

  /** main(), after argument parsing: "generate" runs only the generator, "flash" only esptool, and no command
      runs nothing. */
  function Dispatch(command: Command, python: string, idfPath: Option<string>): (r: Invocation)
    ensures command.Generate? ==> r == Run(GenerateArgv(python, idfPath, command.csv))
    ensures command.Flash? ==> r == Run(FlashArgv(python, idfPath, command.port, command.binary))
    ensures command.NoCommand? ==> r == NoRun
  {
    match command
    case Generate(csv) => Run(GenerateArgv(python, idfPath, csv))
    case Flash(port, binary) => Run(FlashArgv(python, idfPath, port, binary))
    case NoCommand => NoRun
  }
}
