/** The platform gate over the files as they are written (platform_gate.py:60-247): the reader is run on their text, and
    what the gate refuses of any legally written files is named by nothing that runs. */
module GateText {
  import opened CMakeLayout
  import opened CMakeText
  import opened DeadBranches
  import opened PlatformGate

  /** A tracked CMake file: its directory and its text. */
  datatype TextFile = TextFile(base: string, text: string)

  /** How such a file is written: its commands as laid out, and what stands after the last. */
  datatype Source = Source(base: string, laid: seq<Laid>, end: seq<Gap>)

  function OnDisk(sources: seq<Source>): seq<TextFile> {
    seq(|sources|, f requires 0 <= f < |sources| => TextFile(sources[f].base, Text(sources[f].laid, sources[f].end)))
  }

  /** What the reader makes of the files. */
  function Parsed(texts: seq<TextFile>): seq<BuildFile> {
    seq(|texts|, f requires 0 <= f < |texts| => BuildFile(texts[f].base, Commands(texts[f].text)))
  }

  /** The commands as they were laid out. */
  function LaidOut(sources: seq<Source>): seq<BuildFile> {
    seq(|sources|, f requires 0 <= f < |sources| => BuildFile(sources[f].base, CommandsOf(sources[f].laid, 1)))
  }

  /** Legal layouts of well-nested commands. */
  ghost predicate LegalSources(sources: seq<Source>, forests: seq<seq<Stmt>>) {
    Nested(LaidOut(sources), forests)
    && forall f :: 0 <= f < |sources| ==> Legal(sources[f].laid) && LegalGaps(sources[f].end)
  }

  /** The reader gives the gate exactly the commands laid out, with their lines. */
  lemma ParsedIsLaidOut(sources: seq<Source>)
    requires forall f :: 0 <= f < |sources| ==> Legal(sources[f].laid) && LegalGaps(sources[f].end)
    ensures Parsed(OnDisk(sources)) == LaidOut(sources)
  {
    hide Legal, LegalGaps, Text, Commands, CommandsOf;
    forall f | 0 <= f < |sources| ensures Commands(Text(sources[f].laid, sources[f].end)) == CommandsOf(sources[f].laid, 1) {
      LayoutReadsBack(sources[f].laid, sources[f].end);
    }
  }

  /** WHAT THE GATE REFUSES OF A TEXT IS DEAD: in every run of the files that agrees with the host on platform words, no
      command that executes, of those the files were written with, names a refused file. */
  lemma RefusedTextIsDead(sources: seq<Source>, forests: seq<seq<Stmt>>, targets: set<string>,
                          resolve: (string, string) -> string, host: seq<string> -> bool, path: string,
                          f: nat, i: nat, truth: nat -> bool)
    requires LegalSources(sources, forests) && path in targets
    requires Refused(Parsed(OnDisk(sources)), targets, resolve, host, path)
    requires f < |sources| && Agrees(CommandsOf(sources[f].laid, 1), 0, truth, host) && i in Execute(forests[f], 0, truth)
    ensures i < |CommandsOf(sources[f].laid, 1)|
    ensures !Names(CommandsOf(sources[f].laid, 1), sources[f].base, resolve, i, path)
  {
    hide Refused, Agrees, Execute, CommandsOf, Names, Nested;
    ParsedIsLaidOut(sources);
    RefusedIsDead(LaidOut(sources), forests, targets, resolve, host, path, f, i, truth);
  }

  /** REFUSED TEXT IS EXACTLY DEAD TEXT, where no `if` chain around a naming command mixes platform words with others. */
  lemma RefusedTextIffDead(sources: seq<Source>, forests: seq<seq<Stmt>>, targets: set<string>,
                           resolve: (string, string) -> string, host: seq<string> -> bool, path: string)
    requires LegalSources(sources, forests) && path in targets && UniformAround(LaidOut(sources), resolve, path)
    ensures Refused(Parsed(OnDisk(sources)), targets, resolve, host, path) <==>
            (exists f: nat, i: nat :: NamedAt(LaidOut(sources), resolve, f, i, path))
            && forall f: nat, i: nat :: NamedAt(LaidOut(sources), resolve, f, i, path) ==> !Runs(forests[f], i, host)
  {
    hide Refused, Runs, UniformAround;
    ParsedIsLaidOut(sources);
    RefusedIffDead(LaidOut(sources), forests, targets, resolve, host, path);
  }
}
