/**
 Quoting for the shell, against the token recognition and quoting rules of the POSIX.1-2017
 Shell Command Language (sections 2.2.1, 2.2.2 and 2.3).  `Tokenize` is the reader: it knows
 backslash, single quotes and blanks, and rejects every other character that is special to
 the shell when it meets it unquoted.
 */
module ShellQuote {
  import opened Common
  import opened Text

  // ---------- the shell's reading ----------

  datatype Mode =
    | Between                       // no token begun
    | Word(word: string)            // unquoted part of a token
    | Quoted(word: string)          // inside single quotes
    | Escaped(begun: Option<string>) // after an unquoted backslash; None: no token begun

  datatype Reader = Reader(mode: Mode, done: seq<string>) | Rejected

  /** Characters that quoting is needed for, or may be, in an argument (section 2.2).  "=" and
      "%" matter only in words that can be assignments or job names, which no argument is. */
  const SPECIAL: set<char> := {
    '|', '&', ';', '<', '>', '(', ')', '$', '`', '"', '\n', '*', '?', '[', '#', '~'
  }

  const BLANK: set<char> := {' ', '\t'}

  function Begun(mode: Mode): string
    requires mode.Between? || mode.Word?
  {
    if mode.Word? then mode.word else ""
  }

  function Read(r: Reader, c: char): Reader {
    match r
    case Rejected => Rejected
    case Reader(Quoted(w), done) => if c == '\'' then Reader(Word(w), done) else Reader(Quoted(w + [c]), done)
    case Reader(Escaped(w), done) =>
      if c == '\n' then Reader(if w.Some? then Word(w.value) else Between, done)   // line continuation
      else Reader(Word((if w.Some? then w.value else "") + [c]), done)
    case Reader(mode, done) =>
      if c == '\'' then Reader(Quoted(Begun(mode)), done)
      else if c == '\\' then Reader(Escaped(if mode.Word? then Some(mode.word) else None), done)
      else if c in BLANK then Reader(Between, if mode.Word? then done + [mode.word] else done)
      else if c in SPECIAL then Rejected
      else Reader(Word(Begun(mode) + [c]), done)
  }

  function ReadAll(r: Reader, s: string): Reader {
    if s == "" then r else Read(ReadAll(r, s[..|s| - 1]), s[|s| - 1])
  }

  function Tokenize(s: string): Result<seq<string>> {
    match ReadAll(Reader(Between, []), s)
    case Reader(Between, done) => Ok(done)
    case Reader(Word(w), done) => Ok(done + [w])
    case _ => Err("not a sequence of plain words")
  }

  lemma {:induction false} ReadOneMore(r: Reader, s: string, c: char)
    ensures ReadAll(r, s + [c]) == Read(ReadAll(r, s), c)
  {
    assert (s + [c])[..|s|] == s;
  }

  lemma {:induction false} ReadBoth(r: Reader, a: string, b: string)
    ensures ReadAll(r, a + b) == ReadAll(ReadAll(r, a), b)
  {
    if b == "" {
      assert a + b == a;
    } else {
      var init, c := b[..|b| - 1], b[|b| - 1];
      ReadBoth(r, a, init);
      ReadOneMore(r, a + init, c);
      assert a + b == (a + init) + [c];
    }
  }

  // ---------- the source's quoting ----------

  /** Every quote inside becomes: close, escaped quote, reopen. */
  function ReplaceQuotes(s: string): string {
    if s == "" then ""
    else ReplaceQuotes(s[..|s| - 1]) + if s[|s| - 1] == '\'' then "'\\''" else [s[|s| - 1]]
  }

  function ShellEscape(s: string): string {
    "'" + ReplaceQuotes(s) + "'"
  }

  lemma {:induction false} ReadFour(r: Reader, a: char, b: char, c: char, d: char)
    ensures ReadAll(r, [a, b, c, d]) == Read(Read(Read(Read(r, a), b), c), d)
  {
    assert [a, b, c, d] == [a] + [b] + [c] + [d];
    ReadOneMore(r, "", a);
    assert "" + [a] == [a];
    ReadOneMore(r, [a], b);
    ReadOneMore(r, [a] + [b], c);
    ReadOneMore(r, [a] + [b] + [c], d);
  }

  lemma {:induction false} QuotedOneMore(w: string, done: seq<string>, init: string, c: char)
    requires ReadAll(Reader(Quoted(w), done), ReplaceQuotes(init)) == Reader(Quoted(w + init), done)
    ensures ReadAll(Reader(Quoted(w), done), ReplaceQuotes(init) + if c == '\'' then "'\\''" else [c])
         == Reader(Quoted(w + init + [c]), done)
  {
    var r := Reader(Quoted(w), done);
    if c == '\'' {
      ReadBoth(r, ReplaceQuotes(init), "'\\''");
      ReadFour(Reader(Quoted(w + init), done), '\'', '\\', '\'', '\'');
    } else {
      ReadOneMore(r, ReplaceQuotes(init), c);
    }
  }

  lemma {:induction false} QuotedReads(w: string, done: seq<string>, s: string)
    ensures ReadAll(Reader(Quoted(w), done), ReplaceQuotes(s)) == Reader(Quoted(w + s), done)
  {
    if s == "" {
      assert w + s == w;
    } else {
      var init, c := s[..|s| - 1], s[|s| - 1];
      QuotedReads(w, done, init);
      QuotedOneMore(w, done, init, c);
      assert w + s == w + init + [c];
    }
  }

  /** A quoted string extends the token under way by exactly that string. */
  lemma {:induction false} EscapedReads(mode: Mode, done: seq<string>, s: string)
    requires mode.Between? || mode.Word?
    ensures ReadAll(Reader(mode, done), ShellEscape(s)) == Reader(Word(Begun(mode) + s), done)
  {
    var r := Reader(mode, done);
    ReadOneMore(r, "", '\'');
    assert "" + ['\''] == "'";
    ReadBoth(r, "'", ReplaceQuotes(s));
    QuotedReads(Begun(mode), done, s);
    ReadOneMore(r, "'" + ReplaceQuotes(s), '\'');
  }

  // ---------- command lines ----------

  function EscapeAll(cmd: seq<string>): seq<string> {
    if cmd == [] then [] else EscapeAll(cmd[..|cmd| - 1]) + [ShellEscape(cmd[|cmd| - 1])]
  }

  method BuildCmdString(cmd: seq<string>) returns (line: string)
    ensures line == Join(EscapeAll(cmd), ' ')
  {
    var parts, i := [], 0;
    while i < |cmd|
      invariant 0 <= i <= |cmd| && parts == EscapeAll(cmd[..i])
    {
      assert cmd[..i + 1][..i] == cmd[..i];
      parts := parts + [ShellEscape(cmd[i])];
      i := i + 1;
    }
    assert cmd[..i] == cmd;
    line := Join(parts, ' ');
  }

  datatype Mount = Bind(source: string, destination: string, rw: bool) | Volume(name: string, destination: string) | OtherMount

  function MountFlag(m: Mount): seq<string> {
    match m
    case Bind(source, destination, rw) =>
      ["-v", ShellEscape(source) + ":" + ShellEscape(destination) + if rw then "" else ":ro"]
    case Volume(name, destination) => ["-v", ShellEscape(name) + ":" + ShellEscape(destination)]
    case OtherMount => []
  }

  function MountFlags(mounts: seq<Mount>): seq<string> {
    if mounts == [] then [] else MountFlags(mounts[..|mounts| - 1]) + MountFlag(mounts[|mounts| - 1])
  }

  method AppendMount(flags0: seq<string>, m: Mount) returns (flags: seq<string>)
    ensures flags == flags0 + MountFlag(m)
  {
    flags := flags0;
    match m {
      case Bind(source, destination, rw) =>
        var ro := if rw then "" else ":ro";
        flags := flags + ["-v", ShellEscape(source) + ":" + ShellEscape(destination) + ro];
      case Volume(name, destination) =>
        flags := flags + ["-v", ShellEscape(name) + ":" + ShellEscape(destination)];
      case OtherMount =>
    }
  }

  method AppendMountFlags(flags0: seq<string>, mounts: seq<Mount>) returns (flags: seq<string>)
    ensures flags == flags0 + MountFlags(mounts)
  {
    flags := flags0;
    var i := 0;
    while i < |mounts|
      invariant 0 <= i <= |mounts| && flags == flags0 + MountFlags(mounts[..i])
    {
      assert mounts[..i + 1][..i] == mounts[..i];
      flags := AppendMount(flags, mounts[i]);
      i := i + 1;
    }
    assert mounts[..i] == mounts;
  }

  // ---------- round trips ----------

  /** `arg`, unquoted, is read as the one word `word`. */
  ghost predicate IsOneWord(arg: string, word: string) {
    forall done :: ReadAll(Reader(Between, done), arg) == Reader(Word(word), done)
  }

  ghost predicate AreWords(args: seq<string>, words: seq<string>) {
    |args| == |words| && forall i | 0 <= i < |args| :: IsOneWord(args[i], words[i])
  }

  lemma RestAreWords(args: seq<string>, words: seq<string>)
    requires args != [] && AreWords(args, words)
    ensures IsOneWord(args[0], words[0]) && AreWords(args[1..], words[1..])
  {
    forall i | 0 <= i < |args| - 1 ensures IsOneWord(args[1..][i], words[1..][i]) {
      assert IsOneWord(args[i + 1], words[i + 1]);
    }
  }

  lemma {:induction false} FirstReads(arg: string, word: string, rest: string, done: seq<string>)
    requires IsOneWord(arg, word)
    ensures ReadAll(Reader(Between, done), arg + [' '] + rest) == ReadAll(Reader(Between, done + [word]), rest)
  {
    ReadOneMore(Reader(Between, done), arg, ' ');
    ReadBoth(Reader(Between, done), arg + [' '], rest);
  }

  function AllButLast(words: seq<string>): seq<string>
    requires words != []
  {
    words[..|words| - 1]
  }

  lemma AllButLastOf(done: seq<string>, words: seq<string>)
    requires |words| >= 2
    ensures done + [words[0]] + AllButLast(words[1..]) == done + AllButLast(words)
  {
  }

  /** Arguments that are one word each, joined by blanks, are read back as those words. */
  lemma {:induction false} JoinedReads(args: seq<string>, words: seq<string>, done: seq<string>)
    requires args != [] && AreWords(args, words)
    ensures ReadAll(Reader(Between, done), Join(args, ' ')) == Reader(Word(words[|words| - 1]), done + AllButLast(words))
  {
    RestAreWords(args, words);
    if |args| == 1 {
      assert done + AllButLast(words) == done;
    } else {
      FirstReads(args[0], words[0], Join(args[1..], ' '), done);
      JoinedReads(args[1..], words[1..], done + [words[0]]);
      AllButLastOf(done, words);
    }
  }

  lemma {:induction false} WordsTokenize(args: seq<string>, words: seq<string>)
    requires AreWords(args, words)
    ensures Tokenize(Join(args, ' ')) == Ok(words)
  {
    if args != [] {
      JoinedReads(args, words, []);
      assert [] + AllButLast(words) == AllButLast(words);
      assert AllButLast(words) + [words[|words| - 1]] == words;
    }
  }

  lemma EscapedIsOneWord(s: string)
    ensures IsOneWord(ShellEscape(s), s)
  {
    forall done ensures ReadAll(Reader(Between, done), ShellEscape(s)) == Reader(Word(s), done) {
      EscapedReads(Between, done, s);
      assert "" + s == s;
    }
  }

  lemma {:induction false} EscapeAllWords(cmd: seq<string>)
    ensures AreWords(EscapeAll(cmd), cmd)
  {
    if cmd != [] {
      EscapeAllWords(cmd[..|cmd| - 1]);
      EscapedIsOneWord(cmd[|cmd| - 1]);
    }
  }

  /** The shell reads a built command line back as exactly the list it was built from: any
      strings, with quotes, newlines, blanks, or nothing in them. */
  lemma {:induction false} CommandRoundTrip(cmd: seq<string>)
    ensures Tokenize(Join(EscapeAll(cmd), ' ')) == Ok(cmd)
  {
    EscapeAllWords(cmd);
    WordsTokenize(EscapeAll(cmd), cmd);
  }

  /** Hence two command lists that differ give different lines. */
  lemma {:induction false} CommandLinesDiffer(a: seq<string>, b: seq<string>)
    ensures Join(EscapeAll(a), ' ') == Join(EscapeAll(b), ' ') ==> a == b
  {
    CommandRoundTrip(a);
    CommandRoundTrip(b);
  }

  function MountWords(m: Mount): seq<string> {
    match m
    case Bind(source, destination, rw) => ["-v", source + ":" + destination + if rw then "" else ":ro"]
    case Volume(name, destination) => ["-v", name + ":" + destination]
    case OtherMount => []
  }

  function AllMountWords(mounts: seq<Mount>): seq<string> {
    if mounts == [] then [] else AllMountWords(mounts[..|mounts| - 1]) + MountWords(mounts[|mounts| - 1])
  }

  /** Plain characters extend the token under way. */
  lemma {:induction false} PlainReads(mode: Mode, done: seq<string>, s: string)
    requires mode.Between? || mode.Word?
    requires s != "" && forall c | c in s :: c !in SPECIAL && c !in BLANK && c != '\'' && c != '\\'
    ensures ReadAll(Reader(mode, done), s) == Reader(Word(Begun(mode) + s), done)
  {
    var init, c := s[..|s| - 1], s[|s| - 1];
    assert c in s && forall x | x in init :: x in s;
    assert Begun(mode) + s == Begun(mode) + init + [c];
    if init == "" {
      assert Begun(mode) + init == Begun(mode);
    } else {
      PlainReads(mode, done, init);
    }
  }

  lemma {:induction false} ColonReads(r: Reader, arg: string, w: string, done: seq<string>)
    requires ReadAll(r, arg) == Reader(Word(w), done)
    ensures ReadAll(r, arg + ":") == Reader(Word(w + ":"), done)
  {
    ReadOneMore(r, arg, ':');
  }

  lemma EscapedColonReads(done: seq<string>, a: string)
    ensures ReadAll(Reader(Between, done), ShellEscape(a) + ":") == Reader(Word(a + ":"), done)
  {
    EscapedIsOneWord(a);
    ColonReads(Reader(Between, done), ShellEscape(a), a, done);
  }

  lemma PairReads(done: seq<string>, a: string, b: string)
    ensures ReadAll(Reader(Between, done), ShellEscape(a) + ":" + ShellEscape(b)) == Reader(Word(a + ":" + b), done)
  {
    EscapedColonReads(done, a);
    ReadBoth(Reader(Between, done), ShellEscape(a) + ":", ShellEscape(b));
    EscapedReads(Word(a + ":"), done, b);
  }

  lemma PairIsOneWord(a: string, b: string)
    ensures IsOneWord(ShellEscape(a) + ":" + ShellEscape(b), a + ":" + b)
  {
    forall done ensures ReadAll(Reader(Between, done), ShellEscape(a) + ":" + ShellEscape(b)) == Reader(Word(a + ":" + b), done) {
      PairReads(done, a, b);
    }
  }

  lemma ReadOnlyPairIsOneWord(a: string, b: string)
    ensures IsOneWord(ShellEscape(a) + ":" + ShellEscape(b) + ":ro", a + ":" + b + ":ro")
  {
    var pair := ShellEscape(a) + ":" + ShellEscape(b);
    forall done ensures ReadAll(Reader(Between, done), pair + ":ro") == Reader(Word(a + ":" + b + ":ro"), done) {
      PairReads(done, a, b);
      ReadBoth(Reader(Between, done), pair, ":ro");
      PlainReads(Word(a + ":" + b), done, ":ro");
    }
  }

  /** Each mount argument is one word: the option, and its paths joined by colons. */
  lemma MountIsWords(m: Mount)
    ensures AreWords(MountFlag(m), MountWords(m))
  {
    forall done ensures ReadAll(Reader(Between, done), "-v") == Reader(Word("-v"), done) {
      PlainReads(Between, done, "-v");
      assert "" + "-v" == "-v";
    }
    assert IsOneWord("-v", "-v");
    match m
    case Bind(source, destination, rw) =>
      if rw {
        PairIsOneWord(source, destination);
        assert ShellEscape(source) + ":" + ShellEscape(destination) + "" == ShellEscape(source) + ":" + ShellEscape(destination);
        assert source + ":" + destination + "" == source + ":" + destination;
      } else {
        ReadOnlyPairIsOneWord(source, destination);
      }
    case Volume(name, destination) => PairIsOneWord(name, destination);
    case OtherMount =>
  }

  lemma WordsAppend(a: seq<string>, x: seq<string>, b: seq<string>, y: seq<string>)
    requires AreWords(a, x) && AreWords(b, y)
    ensures AreWords(a + b, x + y)
  {
    forall i | 0 <= i < |a + b| ensures IsOneWord((a + b)[i], (x + y)[i]) {
      if i < |a| { assert IsOneWord(a[i], x[i]); } else { assert IsOneWord(b[i - |a|], y[i - |a|]); }
    }
  }

  lemma {:induction false} MountsAreWords(mounts: seq<Mount>)
    ensures AreWords(MountFlags(mounts), AllMountWords(mounts))
  {
    if mounts != [] {
      var init, m := mounts[..|mounts| - 1], mounts[|mounts| - 1];
      MountsAreWords(init);
      MountIsWords(m);
      WordsAppend(MountFlags(init), AllMountWords(init), MountFlag(m), MountWords(m));
    }
  }

  lemma {:induction false} MountsRoundTrip(mounts: seq<Mount>)
    ensures Tokenize(Join(MountFlags(mounts), ' ')) == Ok(AllMountWords(mounts))
  {
    MountsAreWords(mounts);
    WordsTokenize(MountFlags(mounts), AllMountWords(mounts));
  }

  // ---------- the whole argument list ----------

  lemma {:induction false} ReadBlank(s: string, words: seq<string>)
    requires Tokenize(s) == Ok(words)
    ensures ReadAll(Reader(Between, []), s + " ") == Reader(Between, words)
  {
    ReadOneMore(Reader(Between, []), s, ' ');
  }

  lemma {:induction false} ReadFrom(mode: Mode, done: seq<string>, s: string)
    ensures var r := ReadAll(Reader(mode, []), s);
      ReadAll(Reader(mode, done), s) == if r.Rejected? then Rejected else Reader(r.mode, done + r.done)
  {
    if s == "" {
      assert done + [] == done;
    } else {
      var init := s[..|s| - 1];
      ReadFrom(mode, done, init);
      var r := ReadAll(Reader(mode, []), init);
      if r.Reader? && r.mode.Word? {
        assert done + (r.done + [r.mode.word]) == done + r.done + [r.mode.word];
      }
    }
  }

  /** What is on either side of a blank is read separately. */
  lemma TokenizeBoth(a: string, x: seq<string>, b: string, y: seq<string>)
    requires Tokenize(a) == Ok(x) && Tokenize(b) == Ok(y)
    ensures Tokenize(a + " " + b) == Ok(x + y)
  {
    ReadBlank(a, x);
    ReadBoth(Reader(Between, []), a + " ", b);
    ReadFrom(Between, x, b);
    var r := ReadAll(Reader(Between, []), b);
    if r.mode.Word? {
      assert x + r.done + [r.mode.word] == x + (r.done + [r.mode.word]);
    }
  }

  // ---------- all container flags ----------

  /** A published port. */
  datatype Binding = Binding(hostIP: string, containerPort: string, hostPort: string)

  /** What is inspected of the old container.  Maps are given in visiting order; the two
      numbers as they are formatted, empty for zero. */
  datatype Config = Config(
    hostname: string, entrypoint: seq<string>, network: string, restart: string,
    labels: seq<(string, string)>, env: seq<string>, mounts: seq<Mount>, ports: seq<Binding>,
    extraHosts: seq<string>, logOpts: seq<(string, string)>, memory: string, cpus: string, stopSignal: string)

  function PortArg(b: Binding): string {
    ShellEscape(if b.hostIP == "" then "0.0.0.0" else b.hostIP) + ":" + ShellEscape(b.containerPort) + ":" + ShellEscape(b.hostPort)
  }

  function PortWord(b: Binding): string {
    (if b.hostIP == "" then "0.0.0.0" else b.hostIP) + ":" + b.containerPort + ":" + b.hostPort
  }

  function PortFlags(ports: seq<Binding>): seq<string> {
    if ports == [] then [] else PortFlags(ports[..|ports| - 1]) + ["-p", PortArg(ports[|ports| - 1])]
  }

  function PortWords(ports: seq<Binding>): seq<string> {
    if ports == [] then [] else PortWords(ports[..|ports| - 1]) + ["-p", PortWord(ports[|ports| - 1])]
  }

  /** One option per value. */
  function ListFlags(opt: string, values: seq<string>): seq<string> {
    if values == [] then [] else ListFlags(opt, values[..|values| - 1]) + [opt, ShellEscape(values[|values| - 1])]
  }

  function ListWords(opt: string, values: seq<string>): seq<string> {
    if values == [] then [] else ListWords(opt, values[..|values| - 1]) + [opt, values[|values| - 1]]
  }

  function Settings(pairs: seq<(string, string)>): seq<string> {
    if pairs == [] then [] else Settings(pairs[..|pairs| - 1]) + [pairs[|pairs| - 1].0 + "=" + pairs[|pairs| - 1].1]
  }

  /** An option and its value in one flag, unless there is no value. */
  function OptFlag(opt: string, value: string): seq<string> {
    if value == "" then [] else [opt + " " + ShellEscape(value)]
  }

  function OptWords(opt: string, value: string): seq<string> {
    if value == "" then [] else [opt, value]
  }

  function EntrypointFlag(entrypoint: seq<string>): seq<string> {
    if entrypoint == [] then [] else ["--entrypoint" + " " + Join(EscapeAll(entrypoint), ' ')]
  }

  function NumberFlag(opt: string, number: string): seq<string> {
    if number == "" then [] else [opt + "=" + number]
  }

  function RestartOf(c: Config): string {
    if c.restart == "no" then "" else c.restart
  }

  function NameFlags(name: string, c: Config): seq<string> {
    ["-d", "--name" + " " + ShellEscape(name)] + OptFlag("--hostname", c.hostname)
  }

  function NameWords(name: string, c: Config): seq<string> {
    ["-d", "--name", name] + OptWords("--hostname", c.hostname)
  }

  function ModeFlags(c: Config): seq<string> {
    OptFlag("--network", c.network) + OptFlag("--restart", RestartOf(c))
  }

  function ModeWords(c: Config): seq<string> {
    OptWords("--network", c.network) + OptWords("--restart", RestartOf(c))
  }

  function HeadFlags(name: string, c: Config): seq<string> {
    NameFlags(name, c) + EntrypointFlag(c.entrypoint) + ModeFlags(c)
  }

  function HeadWords(name: string, c: Config): seq<string> {
    NameWords(name, c) + EntrypointWords(c.entrypoint) + ModeWords(c)
  }

  function EntrypointWords(entrypoint: seq<string>): seq<string> {
    if entrypoint == [] then [] else ["--entrypoint"] + entrypoint
  }

  function EnvFlags(c: Config): seq<string> {
    ListFlags("-l", Settings(c.labels)) + ListFlags("-e", c.env)
  }

  function EnvWords(c: Config): seq<string> {
    ListWords("-l", Settings(c.labels)) + ListWords("-e", c.env)
  }

  function VolumeFlags(c: Config): seq<string> {
    MountFlags(c.mounts) + PortFlags(c.ports)
  }

  function VolumeWords(c: Config): seq<string> {
    AllMountWords(c.mounts) + PortWords(c.ports)
  }

  function HostFlags(c: Config): seq<string> {
    ListFlags("--add-host", c.extraHosts) + ListFlags("--log-opt", Settings(c.logOpts))
  }

  function HostWords(c: Config): seq<string> {
    ListWords("--add-host", c.extraHosts) + ListWords("--log-opt", Settings(c.logOpts))
  }

  function LimitFlags(c: Config): seq<string> {
    NumberFlag("--memory", c.memory) + NumberFlag("--cpus", c.cpus) + OptFlag("--stop-signal", c.stopSignal)
  }

  function LimitWords(c: Config): seq<string> {
    NumberFlag("--memory", c.memory) + NumberFlag("--cpus", c.cpus) + OptWords("--stop-signal", c.stopSignal)
  }

  function TailFlags(c: Config): seq<string> {
    EnvFlags(c) + VolumeFlags(c) + HostFlags(c) + LimitFlags(c)
  }

  function TailWords(c: Config): seq<string> {
    EnvWords(c) + VolumeWords(c) + HostWords(c) + LimitWords(c)
  }

  method AppendList(flags0: seq<string>, opt: string, values: seq<string>) returns (flags: seq<string>)
    ensures flags == flags0 + ListFlags(opt, values)
  {
    flags := flags0;
    var i := 0;
    while i < |values|
      invariant 0 <= i <= |values| && flags == flags0 + ListFlags(opt, values[..i])
    {
      assert values[..i + 1][..i] == values[..i];
      flags := flags + [opt, ShellEscape(values[i])];
      i := i + 1;
    }
    assert values[..i] == values;
  }

  method AppendPortFlags(flags0: seq<string>, ports: seq<Binding>) returns (flags: seq<string>)
    ensures flags == flags0 + PortFlags(ports)
  {
    flags := flags0;
    var i := 0;
    while i < |ports|
      invariant 0 <= i <= |ports| && flags == flags0 + PortFlags(ports[..i])
    {
      assert ports[..i + 1][..i] == ports[..i];
      flags := flags + ["-p", PortArg(ports[i])];
      i := i + 1;
    }
    assert ports[..i] == ports;
  }

  lemma Associate(a: seq<string>, b: seq<string>, c: seq<string>)
    ensures a + b + c == a + (b + c)
  {
  }

  method AppendEnv(flags0: seq<string>, c: Config) returns (flags: seq<string>)
    ensures flags == flags0 + EnvFlags(c)
  {
    flags := AppendList(flags0, "-l", Settings(c.labels));
    flags := AppendList(flags, "-e", c.env);
    Associate(flags0, ListFlags("-l", Settings(c.labels)), ListFlags("-e", c.env));
  }

  method AppendVolumes(flags0: seq<string>, c: Config) returns (flags: seq<string>)
    ensures flags == flags0 + VolumeFlags(c)
  {
    flags := AppendMountFlags(flags0, c.mounts);
    flags := AppendPortFlags(flags, c.ports);
    Associate(flags0, MountFlags(c.mounts), PortFlags(c.ports));
  }

  method AppendHosts(flags0: seq<string>, c: Config) returns (flags: seq<string>)
    ensures flags == flags0 + HostFlags(c)
  {
    flags := AppendList(flags0, "--add-host", c.extraHosts);
    flags := AppendList(flags, "--log-opt", Settings(c.logOpts));
    Associate(flags0, ListFlags("--add-host", c.extraHosts), ListFlags("--log-opt", Settings(c.logOpts)));
  }

  method BuildContainerFlags(name: string, c: Config) returns (flags: seq<string>)
    ensures flags == HeadFlags(name, c) + TailFlags(c)
  {
    flags := HeadOfFlags(name, c);
    flags := AppendEnv(flags, c);
    flags := AppendVolumes(flags, c);
    flags := AppendHosts(flags, c);
    flags := AppendLimits(flags, c);
    var head, env, volumes, hosts, limits := HeadFlags(name, c), EnvFlags(c), VolumeFlags(c), HostFlags(c), LimitFlags(c);
    Associate(head, env, volumes);
    Associate(head, env + volumes, hosts);
    Associate(head, env + volumes + hosts, limits);
  }

  method HeadOfFlags(name: string, c: Config) returns (flags: seq<string>)
    ensures flags == HeadFlags(name, c)
  {
    flags := ["-d", "--name" + " " + ShellEscape(name)];
    if c.hostname != "" {
      flags := flags + ["--hostname" + " " + ShellEscape(c.hostname)];
    }
    assert flags == NameFlags(name, c);
    if |c.entrypoint| > 0 {
      var ep := BuildCmdString(c.entrypoint);
      flags := flags + ["--entrypoint" + " " + ep];
    }
    assert flags == NameFlags(name, c) + EntrypointFlag(c.entrypoint);
    var modes := [];
    if c.network != "" {
      modes := modes + ["--network" + " " + ShellEscape(c.network)];
    }
    assert modes == OptFlag("--network", c.network);
    if c.restart != "" && c.restart != "no" {
      modes := modes + ["--restart" + " " + ShellEscape(c.restart)];
    }
    assert modes == ModeFlags(c);
    flags := flags + modes;
  }

  method AppendLimits(flags0: seq<string>, c: Config) returns (flags: seq<string>)
    ensures flags == flags0 + LimitFlags(c)
  {
    var limits := [];
    if c.memory != "" {
      limits := limits + ["--memory" + "=" + c.memory];
    }
    if c.cpus != "" {
      limits := limits + ["--cpus" + "=" + c.cpus];
    }
    assert limits == NumberFlag("--memory", c.memory) + NumberFlag("--cpus", c.cpus);
    if c.stopSignal != "" {
      limits := limits + ["--stop-signal" + " " + ShellEscape(c.stopSignal)];
    }
    assert limits == LimitFlags(c);
    flags := flags0 + limits;
  }

  /** The arguments, joined by blanks, are read as the words. */
  predicate ReadAs(args: seq<string>, words: seq<string>) {
    Tokenize(Join(args, ' ')) == Ok(words)
  }

  lemma {:induction false} JoinBoth(a: seq<string>, b: seq<string>)
    requires a != [] && b != []
    ensures Join(a + b, ' ') == Join(a, ' ') + " " + Join(b, ' ')
  {
    if |a| == 1 {
      assert (a + b)[1..] == b;
    } else {
      JoinBoth(a[1..], b);
      assert (a + b)[1..] == a[1..] + b;
    }
  }

  lemma ReadBothAs(a: seq<string>, x: seq<string>, b: seq<string>, y: seq<string>)
    requires ReadAs(a, x) && ReadAs(b, y)
    ensures ReadAs(a + b, x + y)
  {
    if a == [] {
      assert a + b == b && x + y == y;
    } else if b == [] {
      assert a + b == a && x + y == x;
    } else {
      JoinBoth(a, b);
      TokenizeBoth(Join(a, ' '), x, Join(b, ' '), y);
    }
  }

  predicate Plain(s: string) {
    s != "" && forall c | c in s :: c !in SPECIAL && c !in BLANK && c != '\'' && c != '\\'
  }

  lemma PlainReadAs(s: string)
    requires Plain(s)
    ensures ReadAs([s], [s])
  {
    PlainReads(Between, [], s);
    assert "" + s == s && [] + [s] == [s];
  }

  lemma EscapedReadAs(s: string)
    ensures ReadAs([ShellEscape(s)], [s])
  {
    EscapedIsOneWord(s);
    assert [] + [s] == [s];
  }

  lemma OptReadAs(opt: string, value: string)
    requires Plain(opt)
    ensures ReadAs([opt + " " + ShellEscape(value)], [opt, value])
  {
    PlainReadAs(opt);
    EscapedReadAs(value);
    TokenizeBoth(opt, [opt], ShellEscape(value), [value]);
    assert [opt] + [value] == [opt, value];
  }

  lemma OptFlagReadAs(opt: string, value: string)
    requires Plain(opt)
    ensures ReadAs(OptFlag(opt, value), OptWords(opt, value))
  {
    if value != "" { OptReadAs(opt, value); }
  }

  lemma TwoReadAs(opt: string, arg: string, word: string)
    requires Plain(opt) && ReadAs([arg], [word])
    ensures ReadAs([opt, arg], [opt, word])
  {
    PlainReadAs(opt);
    ReadBothAs([opt], [opt], [arg], [word]);
    assert [opt] + [arg] == [opt, arg] && [opt] + [word] == [opt, word];
  }

  lemma {:induction false} ListReadAs(opt: string, values: seq<string>)
    requires Plain(opt)
    ensures ReadAs(ListFlags(opt, values), ListWords(opt, values))
  {
    if values != [] {
      var init, v := values[..|values| - 1], values[|values| - 1];
      ListReadAs(opt, init);
      EscapedReadAs(v);
      TwoReadAs(opt, ShellEscape(v), v);
      ReadBothAs(ListFlags(opt, init), ListWords(opt, init), [opt, ShellEscape(v)], [opt, v]);
    }
  }

  lemma PortReadAs(b: Binding)
    ensures ReadAs([PortArg(b)], [PortWord(b)])
  {
    var ip := if b.hostIP == "" then "0.0.0.0" else b.hostIP;
    var pair, word := ShellEscape(ip) + ":" + ShellEscape(b.containerPort), ip + ":" + b.containerPort;
    var r := Reader(Between, []);
    PairReads([], ip, b.containerPort);
    ReadOneMore(r, pair, ':');
    ReadBoth(r, pair + ":", ShellEscape(b.hostPort));
    EscapedReads(Word(word + ":"), [], b.hostPort);
    assert [] + [PortWord(b)] == [PortWord(b)];
  }

  lemma {:induction false} PortsReadAs(ports: seq<Binding>)
    ensures ReadAs(PortFlags(ports), PortWords(ports))
  {
    if ports != [] {
      var init, b := ports[..|ports| - 1], ports[|ports| - 1];
      PortsReadAs(init);
      PortReadAs(b);
      ShortOptions();
      TwoReadAs("-p", PortArg(b), PortWord(b));
      ReadBothAs(PortFlags(init), PortWords(init), ["-p", PortArg(b)], ["-p", PortWord(b)]);
    }
  }

  /** Letters and dashes only. */
  predicate IsOption(s: string) {
    s != "" && forall i | 0 <= i < |s| :: s[i] == '-' || 'a' <= s[i] <= 'z'
  }

  lemma OptionIsPlain(s: string)
    requires IsOption(s)
    ensures Plain(s)
  {
  }

  lemma ShortOptions()
    ensures Plain("-d") && Plain("-l") && Plain("-e") && Plain("-p") && Plain("--name")
  {
    OptionIsPlain("-d");
    OptionIsPlain("-l");
    OptionIsPlain("-e");
    OptionIsPlain("-p");
    OptionIsPlain("--name");
  }

  lemma HeadOptions()
    ensures Plain("--hostname") && Plain("--entrypoint") && Plain("--network") && Plain("--restart")
  {
    OptionIsPlain("--hostname");
    OptionIsPlain("--entrypoint");
    OptionIsPlain("--network");
    OptionIsPlain("--restart");
  }

  lemma TailOptions()
    ensures Plain("--add-host") && Plain("--log-opt") && Plain("--memory") && Plain("--cpus") && Plain("--stop-signal")
  {
    OptionIsPlain("--add-host");
    OptionIsPlain("--log-opt");
    OptionIsPlain("--memory");
    OptionIsPlain("--cpus");
    OptionIsPlain("--stop-signal");
  }

  lemma EntrypointReadAs(entrypoint: seq<string>)
    ensures ReadAs(EntrypointFlag(entrypoint), EntrypointWords(entrypoint))
  {
    if entrypoint != [] {
      HeadOptions();
      LineReadAs("--entrypoint", entrypoint);
    }
  }

  lemma {:induction false} LineReadAs(opt: string, cmd: seq<string>)
    requires Plain(opt)
    ensures ReadAs([opt + " " + Join(EscapeAll(cmd), ' ')], [opt] + cmd)
  {
    PlainReadAs(opt);
    CommandRoundTrip(cmd);
    TokenizeBoth(opt, [opt], Join(EscapeAll(cmd), ' '), cmd);
  }

  lemma NumberReadAs(opt: string, number: string)
    requires Plain(opt) && (number == "" || Plain(number))
    ensures ReadAs(NumberFlag(opt, number), NumberFlag(opt, number))
  {
    if number != "" { PlainReadAs(opt + "=" + number); }
  }

  lemma NameReadAs(name: string, c: Config)
    ensures ReadAs(NameFlags(name, c), NameWords(name, c))
  {
    ShortOptions();
    HeadOptions();
    NamedReadAs("-d", "--name", name);
    OptFlagReadAs("--hostname", c.hostname);
    ReadBothAs(["-d", "--name" + " " + ShellEscape(name)], ["-d", "--name", name],
               OptFlag("--hostname", c.hostname), OptWords("--hostname", c.hostname));
  }

  lemma NamedReadAs(flag: string, opt: string, name: string)
    requires Plain(flag) && Plain(opt)
    ensures ReadAs([flag, opt + " " + ShellEscape(name)], [flag, opt, name])
  {
    var arg := opt + " " + ShellEscape(name);
    PlainReadAs(flag);
    OptReadAs(opt, name);
    ReadBothAs([flag], [flag], [arg], [opt, name]);
    assert [flag] + [arg] == [flag, arg] && [flag] + [opt, name] == [flag, opt, name];
  }

  lemma ModeReadAs(c: Config)
    ensures ReadAs(ModeFlags(c), ModeWords(c))
  {
    HeadOptions();
    OptFlagReadAs("--network", c.network);
    OptFlagReadAs("--restart", RestartOf(c));
    ReadBothAs(OptFlag("--network", c.network), OptWords("--network", c.network),
               OptFlag("--restart", RestartOf(c)), OptWords("--restart", RestartOf(c)));
  }

  lemma HeadReadAs(name: string, c: Config)
    ensures ReadAs(HeadFlags(name, c), HeadWords(name, c))
  {
    NameReadAs(name, c);
    EntrypointReadAs(c.entrypoint);
    ModeReadAs(c);
    ReadBothAs(NameFlags(name, c), NameWords(name, c), EntrypointFlag(c.entrypoint), EntrypointWords(c.entrypoint));
    ReadBothAs(NameFlags(name, c) + EntrypointFlag(c.entrypoint), NameWords(name, c) + EntrypointWords(c.entrypoint),
               ModeFlags(c), ModeWords(c));
  }

  predicate PlainNumbers(c: Config) {
    (c.memory == "" || Plain(c.memory)) && (c.cpus == "" || Plain(c.cpus))
  }

  lemma EnvReadAs(c: Config)
    ensures ReadAs(EnvFlags(c), EnvWords(c))
  {
    ShortOptions();
    ListReadAs("-l", Settings(c.labels));
    ListReadAs("-e", c.env);
    ReadBothAs(ListFlags("-l", Settings(c.labels)), ListWords("-l", Settings(c.labels)), ListFlags("-e", c.env), ListWords("-e", c.env));
  }

  lemma VolumeReadAs(c: Config)
    ensures ReadAs(VolumeFlags(c), VolumeWords(c))
  {
    MountsRoundTrip(c.mounts);
    PortsReadAs(c.ports);
    ReadBothAs(MountFlags(c.mounts), AllMountWords(c.mounts), PortFlags(c.ports), PortWords(c.ports));
  }

  lemma HostReadAs(c: Config)
    ensures ReadAs(HostFlags(c), HostWords(c))
  {
    TailOptions();
    ListReadAs("--add-host", c.extraHosts);
    ListReadAs("--log-opt", Settings(c.logOpts));
    ReadBothAs(ListFlags("--add-host", c.extraHosts), ListWords("--add-host", c.extraHosts),
               ListFlags("--log-opt", Settings(c.logOpts)), ListWords("--log-opt", Settings(c.logOpts)));
  }

  lemma LimitReadAs(c: Config)
    requires PlainNumbers(c)
    ensures ReadAs(LimitFlags(c), LimitWords(c))
  {
    var memory, cpus := NumberFlag("--memory", c.memory), NumberFlag("--cpus", c.cpus);
    TailOptions();
    NumberReadAs("--memory", c.memory);
    NumberReadAs("--cpus", c.cpus);
    ReadBothAs(memory, memory, cpus, cpus);
    OptFlagReadAs("--stop-signal", c.stopSignal);
    ReadBothAs(memory + cpus, memory + cpus, OptFlag("--stop-signal", c.stopSignal), OptWords("--stop-signal", c.stopSignal));
  }

  lemma TailReadAs(c: Config)
    requires PlainNumbers(c)
    ensures ReadAs(TailFlags(c), TailWords(c))
  {
    EnvReadAs(c);
    VolumeReadAs(c);
    HostReadAs(c);
    LimitReadAs(c);
    ReadBothAs(EnvFlags(c), EnvWords(c), VolumeFlags(c), VolumeWords(c));
    ReadBothAs(EnvFlags(c) + VolumeFlags(c), EnvWords(c) + VolumeWords(c), HostFlags(c), HostWords(c));
    ReadBothAs(EnvFlags(c) + VolumeFlags(c) + HostFlags(c), EnvWords(c) + VolumeWords(c) + HostWords(c), LimitFlags(c), LimitWords(c));
  }

  lemma FlagsReadAs(name: string, c: Config)
    requires PlainNumbers(c)
    ensures ReadAs(HeadFlags(name, c) + TailFlags(c), HeadWords(name, c) + TailWords(c))
  {
    HeadReadAs(name, c);
    TailReadAs(c);
    ReadBothAs(HeadFlags(name, c), HeadWords(name, c), TailFlags(c), TailWords(c));
  }

  /** All flags, image and command, as they stand in the recreate script, reach `docker create`
      as the words of the flags, the image and the command, and nothing else. */
  lemma {:induction false} RecreateArgumentsRoundTrip(name: string, c: Config, image: string, cmd: seq<string>)
    requires PlainNumbers(c)
    ensures Tokenize(Join(HeadFlags(name, c) + TailFlags(c), ' ') + " " + ShellEscape(image) + " " + Join(EscapeAll(cmd), ' '))
            == Ok(HeadWords(name, c) + TailWords(c) + [image] + cmd)
  {
    var flags, words := HeadFlags(name, c) + TailFlags(c), HeadWords(name, c) + TailWords(c);
    FlagsReadAs(name, c);
    EscapedReadAs(image);
    TokenizeBoth(Join(flags, ' '), words, ShellEscape(image), [image]);
    CommandRoundTrip(cmd);
    TokenizeBoth(Join(flags, ' ') + " " + ShellEscape(image), words + [image], Join(EscapeAll(cmd), ' '), cmd);
  }

  // ---------- the words in full ----------

  function Flat(parts: seq<seq<string>>): seq<string> {
    if parts == [] then [] else parts[0] + Flat(parts[1..])
  }

  lemma {:induction false} FlatBack(parts: seq<seq<string>>, last: seq<string>)
    ensures Flat(parts + [last]) == Flat(parts) + last
  {
    if parts == [] {
      assert [] + [last] == [last] && [last][1..] == [];
      assert Flat([last]) == last + Flat([]) == last;
    } else {
      FlatBack(parts[1..], last);
      assert (parts + [last])[1..] == parts[1..] + [last];
      assert parts[0] + (Flat(parts[1..]) + last) == parts[0] + Flat(parts[1..]) + last;
    }
  }

  /** Each value after the option's name. */
  lemma {:induction false} ListInFull(opt: string, values: seq<string>)
    ensures ListWords(opt, values) == Flat(seq(|values|, i requires 0 <= i < |values| => [opt, values[i]]))
  {
    if values != [] {
      var init, n := values[..|values| - 1], |values| - 1;
      ListInFull(opt, init);
      var pairs := seq(n, i requires 0 <= i < n => [opt, init[i]]);
      FlatBack(pairs, [opt, values[n]]);
      assert seq(|values|, i requires 0 <= i < |values| => [opt, values[i]]) == pairs + [[opt, values[n]]];
    }
  }

  lemma {:induction false} SettingsInFull(pairs: seq<(string, string)>)
    ensures Settings(pairs) == seq(|pairs|, i requires 0 <= i < |pairs| => pairs[i].0 + "=" + pairs[i].1)
  {
    if pairs != [] {
      SettingsInFull(pairs[..|pairs| - 1]);
    }
  }

  lemma {:induction false} PortsInFull(ports: seq<Binding>)
    ensures PortWords(ports) == Flat(seq(|ports|, i requires 0 <= i < |ports| =>
      ["-p", (if ports[i].hostIP == "" then "0.0.0.0" else ports[i].hostIP) + ":" + ports[i].containerPort + ":" + ports[i].hostPort]))
  {
    if ports != [] {
      var init, n := ports[..|ports| - 1], |ports| - 1;
      PortsInFull(init);
      var words := seq(n, i requires 0 <= i < n => ["-p", PortWord(init[i])]);
      FlatBack(words, ["-p", PortWord(ports[n])]);
      assert seq(|ports|, i requires 0 <= i < |ports| =>
        ["-p", (if ports[i].hostIP == "" then "0.0.0.0" else ports[i].hostIP) + ":" + ports[i].containerPort + ":" + ports[i].hostPort])
        == words + [["-p", PortWord(ports[n])]];
      assert seq(|init|, i requires 0 <= i < |init| =>
        ["-p", (if init[i].hostIP == "" then "0.0.0.0" else init[i].hostIP) + ":" + init[i].containerPort + ":" + init[i].hostPort]) == words;
    }
  }

  /** What the words of a mount are: a volume by name, a bind by path, read-only where it was. */
  lemma {:induction false} MountsInFull(mounts: seq<Mount>)
    ensures AllMountWords(mounts) == Flat(seq(|mounts|, i requires 0 <= i < |mounts| =>
      if mounts[i].Volume? then ["-v", mounts[i].name + ":" + mounts[i].destination]
      else if mounts[i].Bind? && mounts[i].rw then ["-v", mounts[i].source + ":" + mounts[i].destination]
      else if mounts[i].Bind? then ["-v", mounts[i].source + ":" + mounts[i].destination + ":ro"]
      else []))
  {
    if mounts != [] {
      var init, n := mounts[..|mounts| - 1], |mounts| - 1;
      MountsInFull(init);
      var words := seq(n, i requires 0 <= i < n => MountWords(init[i]));
      forall m: Mount | m.Bind? && m.rw ensures m.source + ":" + m.destination + "" == m.source + ":" + m.destination {}
      FlatBack(words, MountWords(mounts[n]));
      assert seq(|init|, i requires 0 <= i < |init| =>
        if init[i].Volume? then ["-v", init[i].name + ":" + init[i].destination]
        else if init[i].Bind? && init[i].rw then ["-v", init[i].source + ":" + init[i].destination]
        else if init[i].Bind? then ["-v", init[i].source + ":" + init[i].destination + ":ro"]
        else []) == words;
      assert seq(|mounts|, i requires 0 <= i < |mounts| =>
        if mounts[i].Volume? then ["-v", mounts[i].name + ":" + mounts[i].destination]
        else if mounts[i].Bind? && mounts[i].rw then ["-v", mounts[i].source + ":" + mounts[i].destination]
        else if mounts[i].Bind? then ["-v", mounts[i].source + ":" + mounts[i].destination + ":ro"]
        else []) == words + [MountWords(mounts[n])];
    }
  }

  /** The words `docker create` gets ahead of the image: each setting of the old container under
      its own option, in this order, and no option for what is not set; the restart policy "no"
      counts as not set. */
  lemma {:induction false} WordsInFull(name: string, c: Config, labels: seq<string>, logOpts: seq<string>)
    requires |labels| == |c.labels| && forall i | 0 <= i < |labels| :: labels[i] == c.labels[i].0 + "=" + c.labels[i].1
    requires |logOpts| == |c.logOpts| && forall i | 0 <= i < |logOpts| :: logOpts[i] == c.logOpts[i].0 + "=" + c.logOpts[i].1
    ensures HeadWords(name, c) ==
      ["-d", "--name", name]
      + (if c.hostname == "" then [] else ["--hostname", c.hostname])
      + (if c.entrypoint == [] then [] else ["--entrypoint"] + c.entrypoint)
      + ((if c.network == "" then [] else ["--network", c.network])
         + (if c.restart == "" || c.restart == "no" then [] else ["--restart", c.restart]))
    ensures TailWords(c) ==
      (ListWords("-l", labels) + ListWords("-e", c.env))
      + (AllMountWords(c.mounts) + PortWords(c.ports))
      + (ListWords("--add-host", c.extraHosts) + ListWords("--log-opt", logOpts))
      + ((if c.memory == "" then [] else ["--memory=" + c.memory])
         + (if c.cpus == "" then [] else ["--cpus=" + c.cpus])
         + (if c.stopSignal == "" then [] else ["--stop-signal", c.stopSignal]))
  {
    SettingsInFull(c.labels);
    SettingsInFull(c.logOpts);
    assert Settings(c.labels) == labels && Settings(c.logOpts) == logOpts;
    assert "--memory" + "=" == "--memory=" && "--cpus" + "=" == "--cpus=";
  }
}
