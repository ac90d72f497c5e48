/** Resolving an alias and call-time arguments to the program and argument
    vector that runCommand would execute: look the alias up, substitute the
    placeholders, split on white space, take the first field as the program. */
module Resolution {
  import opened Text
  import opened Placeholders

  /** What runCommand does: report that the alias is unknown, report an
      empty command, or execute `program` with `argv`. */
  datatype Outcome = NotFound | EmptyCommand | Exec(program: string, argv: seq<string>)

  /** The outcome of running `alias` with `args` against the aliases in `store`. */
  function Resolve(store: map<string, string>, alias: string, args: seq<string>): (o: Outcome)
    ensures o == NotFound <==> alias !in store
    ensures o.Exec? ==> IsWord(o.program) && forall i :: 0 <= i < |o.argv| ==> IsWord(o.argv[i])
  {
    if alias !in store then NotFound
    else
      var parts := Fields(SubstituteAll(store[alias], args));
      if parts == [] then EmptyCommand else Exec(parts[0], parts[1..])
  }

  /** The command is empty exactly when the alias exists and its template,
      after substitution, is empty or all white space. */
  lemma ResolveEmpty(store: map<string, string>, alias: string, args: seq<string>)
    ensures Resolve(store, alias, args) == EmptyCommand
        <==> alias in store && AllSpace(SubstituteAll(store[alias], args))
  {
    if alias in store {
      FieldsEmpty(SubstituteAll(store[alias], args));
    }
  }

  /** When a command is executed, the program followed by its arguments holds
      every non-space character of the substituted template, in order, and
      nothing else. */
  lemma ResolveExecKeepsText(store: map<string, string>, alias: string, args: seq<string>)
    requires Resolve(store, alias, args).Exec?
    ensures var o := Resolve(store, alias, args);
      Concat([o.program] + o.argv) == NonSpace(SubstituteAll(store[alias], args))
  {
    var parts := Fields(SubstituteAll(store[alias], args));
    FieldsKeepText(SubstituteAll(store[alias], args));
    assert parts == [parts[0]] + parts[1..];
  }

  /** A template saved from words that hold neither white space nor `$` is
      executed as those words, whatever arguments are passed: the first word
      is the program and the others are its arguments. */
  lemma ResolveSavedWords(store: map<string, string>, alias: string, words: seq<string>, args: seq<string>)
    requires |words| >= 1
    requires forall i :: 0 <= i < |words| ==> IsWord(words[i]) && '$' !in words[i]
    ensures Resolve(store[alias := Join(words, " ")], alias, args) == Exec(words[0], words[1..])
  {
    var t := Join(words, " ");
    JoinAvoids(words, " ", '$');
    SubstituteWithoutDollar(t, args);
    FieldsOfJoin(words, " ");
  }

  /** A template built from inert text and placeholders at most `$9`, run
      with inert arguments, executes the fields of the template with each
      supplied placeholder filled in and every other one left literally. */
  lemma ResolveTemplate(store: map<string, string>, alias: string, ps: seq<Piece>, args: seq<string>)
    requires WellFormed(ps) && InertArgs(args)
    ensures var o := Resolve(store[alias := Expand(ps, [])], alias, args);
      var fs := Fields(Expand(ps, args));
      && (fs == [] ==> o == EmptyCommand)
      && (fs != [] ==> o == Exec(fs[0], fs[1..]))
  {
    SubstituteExpand(ps, args);
  }

  /** The template "echo $1 $2" as pieces. */
  const ECHO_PIECES: seq<Piece> := [Lit("echo "), Hole(1), Lit(" "), Hole(2)]

  lemma EchoPieces()
    ensures WellFormed(ECHO_PIECES)
    ensures Expand(ECHO_PIECES, []) == "echo $1 $2"
  {
    var ps := ECHO_PIECES;
    assert PieceOk(ps[0]) && PieceOk(ps[1]) && PieceOk(ps[2]) && PieceOk(ps[3]);
    SingleDigitPlaceholder(1);
    SingleDigitPlaceholder(2);
    assert Expand(ps[3..], []) == "$2";
    assert Expand(ps[2..], []) == " $2";
    assert Expand(ps[1..], []) == "$1 $2";
  }

  lemma EchoExpansions()
    ensures Expand(ECHO_PIECES, ["a", "b"]) == "echo a b"
    ensures Expand(ECHO_PIECES, ["a"]) == "echo a $2"
  {
    var ps := ECHO_PIECES;
    SingleDigitPlaceholder(2);
    assert Expand(ps[3..], ["a", "b"]) == "b";
    assert Expand(ps[2..], ["a", "b"]) == " b";
    assert Expand(ps[1..], ["a", "b"]) == "a b";
    assert Expand(ps[3..], ["a"]) == "$2";
    assert Expand(ps[2..], ["a"]) == " $2";
    assert Expand(ps[1..], ["a"]) == "a $2";
  }

  lemma EchoFields()
    ensures Fields("echo a b") == ["echo", "a", "b"]
    ensures Fields("echo a $2") == ["echo", "a", "$2"]
  {
    assert Join(["echo", "a", "b"], " ") == "echo a b";
    FieldsOfJoin(["echo", "a", "b"], " ");
    assert Join(["echo", "a", "$2"], " ") == "echo a $2";
    assert IsWord("$2");
    FieldsOfJoin(["echo", "a", "$2"], " ");
  }

  /** "echo $1 $2" with arguments "a" and "b" executes `echo` with `a` and `b`. */
  lemma EchoBothArguments(store: map<string, string>)
    ensures Resolve(store["e" := "echo $1 $2"], "e", ["a", "b"]) == Exec("echo", ["a", "b"])
  {
    var m, args := store["e" := "echo $1 $2"], ["a", "b"];
    EchoPieces();
    EchoExpansions();
    SubstituteExpand(ECHO_PIECES, args);
    var command := SubstituteAll(m["e"], args);
    assert command == "echo a b";
    EchoFields();
    assert ["echo", "a", "b"][1..] == ["a", "b"];
  }

  /** With "a" alone, the unmatched `$2` is passed on literally. */
  lemma EchoMissingArgument(store: map<string, string>)
    ensures Resolve(store["e" := "echo $1 $2"], "e", ["a"]) == Exec("echo", ["a", "$2"])
  {
    var m, args := store["e" := "echo $1 $2"], ["a"];
    EchoPieces();
    EchoExpansions();
    SubstituteExpand(ECHO_PIECES, args);
    var command := SubstituteAll(m["e"], args);
    assert command == "echo a $2";
    EchoFields();
    assert ["echo", "a", "$2"][1..] == ["a", "$2"];
  }
}
