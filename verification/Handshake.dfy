/**
 * The start of a worker: its program writes lines to descriptor 3, announcing its inputs, and
 * the service reads them until the program says that it is running.
 */
module Handshake {
  import opened Text

  datatype Outcome =
    | Running(inputs: map<string, string>)
    | BadInput(text: string)
    | FailedToStart(reason: string)
    | BadLine(line: string)
    | NotRunning

  datatype Line = Ignored | Input(name: string, address: string) | Go | Wrong(outcome: Outcome)

  predicate StartsWith(line: string, prefix: string) {
    |line| >= |prefix| && line[..|prefix|] == prefix
  }

  /** What a line says. */
  function Read(line: string): Line {
    if line == "INIT" then Ignored
    else if StartsWith(line, "INPUT:") then
      var text := line[6..];
      var pos := Find(text, ':', 0);
      if pos == |text| then Wrong(BadInput(text)) else Input(text[..pos], text[pos + 1..])
    else if StartsWith(line, "ERROR:") then Wrong(FailedToStart(line[6..]))
    else if StartsWith(line, "NOTICE:") then Ignored
    else if line == "RUNNING" then Go
    else Wrong(BadLine(line))
  }

  /** The kinds of lines, written out. */
  lemma LinesRead(text: string, name: string, address: string)
    ensures Read("INIT") == Ignored && Read("NOTICE:" + text) == Ignored && Read("RUNNING") == Go
    ensures Read("ERROR:" + text) == Wrong(FailedToStart(text))
    ensures Free(name, ':') ==> Read("INPUT:" + (name + [':'] + address)) == Input(name, address)
    ensures Free(text, ':') ==> Read("INPUT:" + text) == Wrong(BadInput(text))
  {
    PrefixRead("INPUT:", text);
    PrefixRead("INPUT:", name + [':'] + address);
    PrefixRead("ERROR:", text);
    PrefixRead("NOTICE:", text);
    GoRead();
    if Free(name, ':') {
      FindIn(name, address, ':', 0);
      assert (name + [':'] + address)[..|name|] == name && (name + [':'] + address)[|name| + 1..] == address;
    }
    if Free(text, ':') {
      FindNone(text, ':', 0);
    }
    assert "NOTICE:"[1] == 'O' && "ERROR:"[1] == 'R' && "INPUT:"[1] == 'N' && "INPUT:"[2] == 'P' && "INIT"[2] == 'I';
  }

  lemma PrefixRead(prefix: string, text: string)
    ensures StartsWith(prefix + text, prefix) && (prefix + text)[|prefix|..] == text
  {
  }

  /** Every other line is an error. */
  lemma OthersRead(line: string)
    ensures line != "INIT" && line != "RUNNING" && (forall text :: line != "INPUT:" + text)
            && (forall text :: line != "ERROR:" + text) && (forall text :: line != "NOTICE:" + text)
            ==> Read(line) == Wrong(BadLine(line))
  {
    if StartsWith(line, "INPUT:") {
      assert line == "INPUT:" + line[6..];
    }
    if StartsWith(line, "ERROR:") {
      assert line == "ERROR:" + line[6..];
    }
    if StartsWith(line, "NOTICE:") {
      assert line == "NOTICE:" + line[7..];
    }
  }

  /** The handshake over all that the program writes from offset `at` on. */
  function Shake(text: string, at: nat, inputs: map<string, string>): Outcome
    requires at <= |text|
    decreases |text| - at
  {
    var end := Find(text, '\n', at);
    if at == |text| then NotRunning
    else
      match Read(text[at..end])
      case Wrong(outcome) => outcome
      case Go => if end == |text| then NotRunning else Running(inputs)
      case Ignored => if end == |text| then NotRunning else Shake(text, end + 1, inputs)
      case Input(name, address) =>
        if end == |text| then NotRunning else Shake(text, end + 1, inputs[name := address])
  }

  /** What one round of the reader does to the handshake. */
  lemma OneRound(text: string, at: nat, inputs: map<string, string>)
    requires at < |text|
    ensures var end := Find(text, '\n', at);
            var line := text[at..end];
            Shake(text, at, inputs) ==
              match Read(line)
              case Wrong(outcome) => outcome
              case Go => if end == |text| then NotRunning else Running(inputs)
              case Ignored => After(text, end, inputs)
              case Input(name, address) => After(text, end, inputs[name := address])
  {
    hide Read, Find;
  }

  /** The handshake behind a line that ends there. */
  function After(text: string, end: nat, inputs: map<string, string>): Outcome
    requires end <= |text|
  {
    if end == |text| then NotRunning else Shake(text, end + 1, inputs)
  }

  /** process::run_process: a last line without its line feed leaves the stream at its end. */
  method RunProcess(text: string) returns (o: Outcome)
    ensures o == Shake(text, 0, map[])
  {
    hide Shake, Find, StartsWith;
    AtTheEnd(text);
    var inputs: map<string, string>, at, eof := map[], 0, false;
    while at < |text|
      invariant at <= |text| && (eof ==> at == |text|)
      invariant Shake(text, 0, map[]) == if eof then NotRunning else Shake(text, at, inputs)
      decreases |text| - at
    {
      var end := Find(text, '\n', at);
      var line := text[at..end];
      OneRound(text, at, inputs);
      eof := end == |text|;
      at := if eof then end else end + 1;
      if line == "INIT" {
        continue;
      }
      if StartsWith(line, "INPUT:") {
        InputIsLong(line);
        line := line[6..];
        var pos := Find(line, ':', 0);
        if pos == |line| {
          return BadInput(line);
        }
        inputs := inputs[line[..pos] := line[pos + 1..]];
        continue;
      }
      if StartsWith(line, "ERROR:") {
        InputIsLong(line);
        return FailedToStart(line[6..]);
      }
      if StartsWith(line, "NOTICE:") {
        continue;
      }
      if line == "RUNNING" {
        return if eof then NotRunning else Running(inputs);
      }
      return BadLine(line);
    }
    o := NotRunning;
  }

  lemma AtTheEnd(text: string)
    ensures forall inputs :: Shake(text, |text|, inputs) == NotRunning
  {
  }

  lemma InputIsLong(line: string)
    requires StartsWith(line, "INPUT:") || StartsWith(line, "ERROR:")
    ensures |line| >= 6
  {
  }

  // ---- when a program counts as running ----

  predicate Harmless(line: string) {
    Read(line).Ignored? || Read(line).Input?
  }

  /** The inputs after some lines; a name announced again changes its address. */
  function Announced(lines: seq<string>, inputs: map<string, string>): map<string, string> {
    if lines == [] then inputs
    else
      match Read(lines[0])
      case Input(name, address) => Announced(lines[1..], inputs[name := address])
      case _ => Announced(lines[1..], inputs)
  }

  function Written(lines: seq<string>): string {
    if lines == [] then "" else lines[0] + ['\n'] + Written(lines[1..])
  }

  ghost predicate HarmlessLines(lines: seq<string>) {
    forall k :: 0 <= k < |lines| ==> Harmless(lines[k]) && Free(lines[k], '\n')
  }

  /** What the program writes, up to its report that it is running. */
  ghost predicate Reports(text: string, lines: seq<string>) {
    HarmlessLines(lines) && exists rest :: text == Written(lines) + "RUNNING\n" + rest
  }

  lemma {:induction false} ShakeShift(p: string, s: string, at: nat, inputs: map<string, string>)
    requires at <= |s|
    ensures Shake(p + s, |p| + at, inputs) == Shake(s, at, inputs)
    decreases |s| - at
  {
    hide Read, Find;
    var end := Find(s, '\n', at);
    FindShift(p, s, '\n', at);
    assert (p + s)[|p| + at..|p| + end] == s[at..end];
    if at < |s| && end < |s| {
      match Read(s[at..end])
      case Input(name, address) => ShakeShift(p, s, end + 1, inputs[name := address]);
      case _ => ShakeShift(p, s, end + 1, inputs);
    }
  }

  /** One line off the front. */
  lemma ShakeLine(line: string, rest: string, inputs: map<string, string>)
    requires Free(line, '\n')
    ensures Shake(line + ['\n'] + rest, 0, inputs) ==
            match Read(line)
            case Wrong(outcome) => outcome
            case Go => Running(inputs)
            case Ignored => Shake(rest, 0, inputs)
            case Input(name, address) => Shake(rest, 0, inputs[name := address])
  {
    hide Read;
    var text := line + ['\n'] + rest;
    FindIn(line, rest, '\n', 0);
    assert text[0..|line|] == line;
    ShakeShift(line + ['\n'], rest, 0, inputs);
    match Read(line)
    case Input(name, address) => ShakeShift(line + ['\n'], rest, 0, inputs[name := address]);
    case _ =>
  }

  lemma GoRead()
    ensures Read("RUNNING") == Go
  {
    var line := "RUNNING";
    assert line[..6][0] == 'R' && line[..7][0] == 'R';
  }

  /** A report after harmless lines is understood, whatever is written behind it. */
  lemma {:induction false} Understood(lines: seq<string>, rest: string, inputs: map<string, string>)
    requires HarmlessLines(lines)
    ensures Shake(Written(lines) + "RUNNING\n" + rest, 0, inputs) == Running(Announced(lines, inputs))
  {
    hide Shake, Read;
    if lines == [] {
      assert "" + "RUNNING\n" + rest == "RUNNING" + ['\n'] + rest;
      GoRead();
      ShakeLine("RUNNING", rest, inputs);
    } else {
      var tail := Written(lines[1..]) + "RUNNING\n" + rest;
      assert lines == [lines[0]] + lines[1..];
      WrittenFirst(lines[0], lines[1..], rest);
      ShakeLine(lines[0], tail, inputs);
      var line := Read(lines[0]);
      Understood(lines[1..], rest, if line.Input? then inputs[line.name := line.address] else inputs);
    }
  }

  /** Nothing else is taken for a report: the lines before it, found again. */
  lemma {:induction false} OnlyReports(text: string, inputs: map<string, string>) returns (lines: seq<string>, rest: string)
    requires Shake(text, 0, inputs).Running?
    ensures HarmlessLines(lines) && text == Written(lines) + "RUNNING\n" + rest
    decreases |text|
  {
    hide Shake, Read, Written, HarmlessLines;
    var end := Find(text, '\n', 0);
    Stops(text, inputs);
    var line, tail := text[..end], text[end + 1..];
    assert text == line + ['\n'] + tail;
    ShakeLine(line, tail, inputs);
    WrongStops(line);
    if Read(line).Go? {
      lines, rest := [], tail;
      GoLine(line);
      NoLines();
      assert text == "" + "RUNNING\n" + rest;
    } else {
      var next := if Read(line).Input? then inputs[Read(line).name := Read(line).address] else inputs;
      lines, rest := OnlyReports(tail, next);
      WrittenFirst(line, lines, rest);
      HarmlessMore(line, lines);
      lines := [line] + lines;
    }
  }

  lemma NoLines()
    ensures Written([]) == "" && HarmlessLines([])
  {
  }

  lemma HarmlessMore(line: string, lines: seq<string>)
    requires HarmlessLines(lines) && Harmless(line) && Free(line, '\n')
    ensures HarmlessLines([line] + lines)
  {
    hide Read;
  }

  lemma WrittenFirst(line: string, lines: seq<string>, rest: string)
    ensures Written([line] + lines) + "RUNNING\n" + rest == line + ['\n'] + (Written(lines) + "RUNNING\n" + rest)
  {
    assert ([line] + lines)[1..] == lines;
  }

  lemma WrongStops(line: string)
    ensures Read(line).Wrong? ==> !Read(line).outcome.Running?
  {
  }

  lemma GoLine(line: string)
    requires Read(line).Go?
    ensures line == "RUNNING"
  {
  }

  lemma Stops(text: string, inputs: map<string, string>)
    requires Shake(text, 0, inputs).Running?
    ensures text != "" && Find(text, '\n', 0) < |text|
  {
  }

  /** The service takes a program for running exactly when it reports so after harmless lines. */
  lemma RunningExactly(text: string)
    ensures Shake(text, 0, map[]).Running? <==> exists lines :: Reports(text, lines)
    ensures forall lines :: Reports(text, lines) ==> Shake(text, 0, map[]) == Running(Announced(lines, map[]))
  {
    hide Shake;
    forall lines | Reports(text, lines)
      ensures Shake(text, 0, map[]) == Running(Announced(lines, map[]))
    {
      var rest :| text == Written(lines) + "RUNNING\n" + rest;
      Understood(lines, rest, map[]);
    }
    if Shake(text, 0, map[]).Running? {
      var lines, rest := OnlyReports(text, map[]);
      assert Reports(text, lines);
    }
  }

  /** Without a report, the first line that is not harmless decides, or the end of what is written. */
  lemma {:induction false} NotRunningBecause(lines: seq<string>, last: string, rest: string, inputs: map<string, string>)
    requires HarmlessLines(lines) && Free(last, '\n') && Read(last).Wrong?
    ensures Shake(Written(lines) + (last + ['\n'] + rest), 0, inputs) == Read(last).outcome
    ensures Shake(Written(lines), 0, inputs) == NotRunning
    decreases lines
  {
    hide Shake, Read;
    if lines == [] {
      assert "" + (last + ['\n'] + rest) == last + ['\n'] + rest;
      ShakeLine(last, rest, inputs);
      AtTheEnd("");
    } else {
      var line := Read(lines[0]);
      var next := if line.Input? then inputs[line.name := line.address] else inputs;
      NotRunningBecause(lines[1..], last, rest, next);
      ShakeLine(lines[0], Written(lines[1..]) + (last + ['\n'] + rest), inputs);
      ShakeLine(lines[0], Written(lines[1..]), inputs);
      assert Written(lines) + (last + ['\n'] + rest) ==
             lines[0] + ['\n'] + (Written(lines[1..]) + (last + ['\n'] + rest));
    }
  }

  /** The k-th line announces the name. */
  ghost predicate Announces(lines: seq<string>, k: nat, name: string, address: string) {
    k < |lines| && Free(name, ':') && lines[k] == "INPUT:" + (name + [':'] + address)
  }

  /** An input is known exactly if a line announces it, and under the address of the last that does. */
  lemma {:induction false} AnnouncedExactly(lines: seq<string>, inputs: map<string, string>, name: string)
    ensures name in Announced(lines, inputs) <==>
              name in inputs || exists k: nat, a :: Announces(lines, k, name, a)
    ensures forall k: nat, a :: Announces(lines, k, name, a) && (forall j: nat, b :: k < j ==> !Announces(lines, j, name, b)) ==>
              name in Announced(lines, inputs) && Announced(lines, inputs)[name] == a
    ensures (forall k: nat, a :: !Announces(lines, k, name, a)) && name in inputs ==>
              Announced(lines, inputs)[name] == inputs[name]
    decreases lines
  {
    hide Read, Announces;
    NoneAnnounced(name);
    if lines != [] {
      var line, rest := Read(lines[0]), lines[1..];
      var next := if line.Input? then inputs[line.name := line.address] else inputs;
      AnnouncedExactly(rest, next, name);
      FirstAnnounces(lines, name);
      if line.Input? && line.name == name {
        assert Announces(lines, 0, name, line.address);
      }
      if k: nat, a :| Announces(rest, k, name, a) {
        assert Announces(lines, k + 1, name, a);
      }
      if k: nat, a :| Announces(lines, k, name, a) {
        assert k > 0 ==> Announces(rest, k - 1, name, a);
      }
    }
  }

  lemma NoneAnnounced(name: string)
    ensures forall k: nat, a :: !Announces([], k, name, a)
  {
  }

  lemma FirstAnnounces(lines: seq<string>, name: string)
    requires lines != []
    ensures forall k: nat, a :: Announces(lines, k, name, a) <==>
              if k == 0 then Read(lines[0]) == Input(name, a) else Announces(lines[1..], k - 1, name, a)
    ensures forall k: nat, a :: Announces(lines[1..], k, name, a) ==> Announces(lines, k + 1, name, a)
  {
    hide Read;
    forall a
      ensures Read(lines[0]) == Input(name, a) <==> Announces(lines, 0, name, a)
    {
      LinesRead("", name, a);
      InputText(lines[0], name, a);
    }
    assert forall k: nat :: 0 < k < |lines| ==> lines[k] == lines[1..][k - 1];
  }

  lemma InputText(line: string, name: string, address: string)
    ensures Read(line) == Input(name, address) ==> Free(name, ':') && line == "INPUT:" + (name + [':'] + address)
  {
    if Read(line) == Input(name, address) {
      var text := line[6..];
      var pos := Find(text, ':', 0);
      assert line == "INPUT:" + text && text == text[..pos] + [':'] + text[pos + 1..];
    }
  }

  // ---- the program's side ----

  function InputLine(name: string, address: string): string {
    "INPUT:" + name + [':'] + address
  }

  function InputLines(ports: seq<(string, string)>): seq<string> {
    if ports == [] then [] else [InputLine(ports[0].0, ports[0].1)] + InputLines(ports[1..])
  }

  /** The ports as a map, the last announcement of a name counting. */
  function Ports(ports: seq<(string, string)>, inputs: map<string, string>): map<string, string> {
    if ports == [] then inputs else Ports(ports[1..], inputs[ports[0].0 := ports[0].1])
  }

  ghost predicate PortsOk(ports: seq<(string, string)>) {
    forall i :: 0 <= i < |ports| ==>
      Free(ports[i].0, ':') && Free(ports[i].0, '\n') && Free(ports[i].1, '\n')
  }

  /** A program that announces its ports and then runs is understood in exactly that way. */
  lemma ProgramUnderstood(ports: seq<(string, string)>, rest: string)
    requires PortsOk(ports)
    ensures Shake("INIT\n" + Written(InputLines(ports)) + "RUNNING\n" + rest, 0, map[]) == Running(Ports(ports, map[]))
  {
    hide Shake, Written, InputLines, Ports, PortsOk, HarmlessLines, Announced;
    var lines := InputLines(ports);
    LinesOk(ports, map[]);
    ShakeLine("INIT", Written(lines) + "RUNNING\n" + rest, map[]);
    assert "INIT\n" + Written(lines) + "RUNNING\n" + rest == "INIT" + ['\n'] + (Written(lines) + "RUNNING\n" + rest);
    Understood(lines, rest, map[]);
  }

  lemma InputRead(name: string, address: string)
    requires Free(name, ':')
    ensures Read(InputLine(name, address)) == Input(name, address)
  {
    var line := InputLine(name, address);
    var text := line[6..];
    assert text == name + [':'] + address;
    FindIn(name, address, ':', 0);
    assert text[..|name|] == name && text[|name| + 1..] == address;
    assert line[..6] == "INPUT:" && line[2] == 'P';
  }

  lemma {:induction false} LinesOk(ports: seq<(string, string)>, inputs: map<string, string>)
    requires PortsOk(ports)
    ensures HarmlessLines(InputLines(ports)) && Announced(InputLines(ports), inputs) == Ports(ports, inputs)
  {
    hide Read, HarmlessLines, InputLine;
    NoLines();
    if ports != [] {
      var (name, address) := ports[0];
      InputRead(name, address);
      InputFree(name, address);
      LinesOk(ports[1..], inputs[name := address]);
      HarmlessMore(InputLine(name, address), InputLines(ports[1..]));
      assert InputLines(ports)[1..] == InputLines(ports[1..]);
    }
  }

  lemma InputFree(name: string, address: string)
    requires Free(name, '\n') && Free(address, '\n')
    ensures Free(InputLine(name, address), '\n')
  {
  }
}
