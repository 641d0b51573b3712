/** Whole lines through the parser: the unit tests of the server and a few
    lines that show the edges of the grammar. Each is an instance of one of
    the general properties proved in the parser module. */
module ParserExamples {
  import opened Wrappers
  import opened Tokens
  import opened Lexical
  import opened Commands
  import opened Parser

  lemma JoinOfTwo(a: string, b: string, sep: char)
    ensures JoinWith([a, b], sep) == a + [sep] + b
  {
    assert [a, b][1..] == [b];
  }

  lemma JoinOfThree(a: string, b: string, c: string, sep: char)
    ensures JoinWith([a, b, c], sep) == a + [sep] + b + [sep] + c
  {
    assert [a, b, c][1..] == [b, c];
    JoinOfTwo(b, c, sep);
  }

  lemma JoinOfFour(a: string, b: string, c: string, d: string, sep: char)
    ensures JoinWith([a, b, c, d], sep) == a + [sep] + b + [sep] + c + [sep] + d
  {
    assert [a, b, c, d][1..] == [b, c, d];
    JoinOfThree(b, c, d, sep);
  }

  /** The two channel names the server's tests use. */
  lemma SampleChannels()
    ensures IsChannel("#foo") && IsChannel("#bar")
  {
    assert "#foo"[1..] == "foo" && IsChanString("foo");
    assert "#bar"[1..] == "bar" && IsChanString("bar");
  }

  /** The upper-case verb the tests use is read as `join`. */
  lemma UpperJoinVerb()
    ensures Lowered("JOIN") == "join"
  {
  }

  lemma SampleSpellings()
    ensures "#foo" + [','] + "#bar" == "#foo,#bar"
    ensures "fubar" + [','] + "foobar" == "fubar,foobar"
    ensures "foo" + [','] + "#bar" == "foo,#bar"
  {
  }

  /** `JOIN #foo,#bar fubar,foobar` joins two channels with two keys. */
  lemma JoinTwoChannelsWithKeys()
    ensures ParseLine("JOIN" + " " + "#foo,#bar" + " " + "fubar,foobar")
         == Ok(Command(None, Join(["#foo", "#bar"], Some(["fubar", "foobar"]))))
  {
    var channels := ["#foo", "#bar"];
    var keys := ["fubar", "foobar"];
    SampleChannels();
    UpperJoinVerb();
    JoinLineRoundTrip("JOIN", channels, Some(keys));
    JoinOfTwo("#foo", "#bar", ',');
    SampleSpellings();
    JoinOfTwo("fubar", "foobar", ',');
    JoinOfThree("JOIN", "#foo,#bar", "fubar,foobar", ' ');
  }

  /** A fourth word makes the same line malformed. */
  lemma JoinTooManyLine()
    ensures ParseLine("JOIN" + " " + "#foo,#bar" + " " + "fubar,foobar" + " " + "foooobar") == Err(Malformed(""))
  {
    var channels := ["#foo", "#bar"];
    SampleChannels();
    UpperJoinVerb();
    JoinLineFourthWord("JOIN", channels, "fubar,foobar", "foooobar");
    JoinOfTwo("#foo", "#bar", ',');
    SampleSpellings();
    JoinOfFour("JOIN", "#foo,#bar", "fubar,foobar", "foooobar", ' ');
  }

  /** `JOIN 0` is the one-element channel list `0` with no keys. */
  lemma JoinZeroLine()
    ensures ParseLine("JOIN" + " " + "0") == Ok(Command(None, Join(["0"], None)))
  {
    LineOfTokens(["JOIN", "0"]);
    JoinOfTwo("JOIN", "0", ' ');
    UpperJoinVerb();
    assert ["JOIN", "0"][1..] == ["0"];
  }

  /** A line starting with a space has the empty word as its verb, so it is
      unrecognised, and the payload renders every word after it. */
  lemma LeadingSpaceLine()
    ensures ParseLine(" " + "JOIN") == Err(Unrecognised("JOIN "))
  {
    LineOfTokens(["", "JOIN"]);
    JoinOfTwo("", "JOIN", ' ');
    assert ["", "JOIN"][1..] == ["JOIN"];
    assert ["JOIN"][..0] == [];
    assert JoinStrIter(["JOIN"]) == "JOIN" + " ";
    assert Lowered("") == "" && "" !in Verbs;
    assert "" + [' '] + "JOIN" == " " + "JOIN";
    var tokens := ["", "JOIN"];
    assert ParseCommand(tokens) == Err(Unrecognised(JoinStrIter(tokens[1..])));
    assert "JOIN" + " " == "JOIN ";
  }

  /** `JOIN` with no parameters is refused as unrecognised, with nothing left
      over. */
  lemma JoinAloneLine()
    ensures ParseLine("JOIN") == Err(Unrecognised(""))
  {
    LineOfTokens(["JOIN"]);
    UpperJoinVerb();
  }

  /** A channel without its sigil refuses the line, naming that channel. */
  lemma JoinMissingSigilLine()
    ensures ParseLine("JOIN" + " " + "foo,#bar") == Err(BadToken("foo"))
  {
    var names := ["foo", "#bar"];
    UpperJoinVerb();
    JoinOfTwo("foo", "#bar", ',');
    SampleSpellings();
    assert !IsChannel("foo");
    JoinLineBadChannel("JOIN", names, 0);
    JoinOfTwo("JOIN", "foo,#bar", ' ');
  }

  /** The line terminator is not stripped, so it stays in the last channel
      and the line is refused. */
  lemma TerminatorStaysInChannel()
    ensures ParseLine("JOIN" + " " + "#foo\r\n") == Err(BadToken("#foo\r\n"))
  {
    UpperJoinVerb();
    ChannelExamples();
    JoinLineBadChannel("JOIN", ["#foo\r\n"], 0);
    JoinOfTwo("JOIN", "#foo\r\n", ' ');
  }

  lemma MixedCaseLetters()
    ensures Lowered("JoIn") == Lowered("join") == Lowered("JOIN") == "join"
  {
  }

  /** The verb is matched in any case. */
  lemma MixedCaseVerb()
    ensures ParseLine("JoIn" + " " + "0") == ParseLine("join" + " " + "0") == ParseLine("JOIN" + " " + "0")
  {
    MixedCaseLetters();
    VerbCaseInsensitiveLine("JoIn", "JOIN", "0");
    VerbCaseInsensitiveLine("join", "JOIN", "0");
  }

  lemma NickVerb()
    ensures Lowered("NICK") == "nick"
  {
  }

  /** A verb the code has no grammar for yet stops the parse. */
  lemma NickIsUnimplemented()
    ensures ParseLine("NICK" + " " + "nvx") == Err(Unimplemented("nick"))
  {
    LineOfTokens(["NICK", "nvx"]);
    JoinOfTwo("NICK", "nvx", ' ');
    NickVerb();
  }

  lemma PartVerb()
    ensures Lowered("PART") == "part"
  {
  }

  lemma PartRest()
    ensures JoinStrIter(["#foo", "bye"]) == "#foo bye "
  {
    assert ["#foo", "bye"][..1] == ["#foo"];
    assert ["#foo"][..0] == [];
    assert JoinStrIter(["#foo"]) == "#foo" + " ";
  }

  /** An unknown verb is reported with the rest of the line, each word
      followed by one space. */
  lemma UnknownVerbLine()
    ensures ParseLine("PART" + " " + "#foo" + " " + "bye") == Err(Unrecognised("#foo bye "))
  {
    var tokens := ["PART", "#foo", "bye"];
    LineOfTokens(tokens);
    JoinOfThree("PART", "#foo", "bye", ' ');
    PartVerb();
    assert tokens[1..] == ["#foo", "bye"];
    PartRest();
  }

  lemma SampleOriginParts()
    ensures IsNickname("nvx-23") && IsChanString("nvx") && IsLooseHostname("ecs.vuw.ac.nz")
  {
  }

  /** `JOIN #foo` joins one channel without keys. */
  lemma JoinOneChannelLine()
    ensures ParseLine("JOIN #foo") == Ok(Command(None, Join(["#foo"], None)))
  {
    SampleChannels();
    UpperJoinVerb();
    JoinLineRoundTrip("JOIN", ["#foo"], None);
    assert JoinTokens("JOIN", ["#foo"], None) == ["JOIN", "#foo"];
    JoinOfTwo("JOIN", "#foo", ' ');
    assert "JOIN" + [' '] + "#foo" == "JOIN #foo";
  }

  /** Any `nick!user@host` origin is kept, without its `:`, as the prefix
      of the command that follows it. */
  lemma OriginThenJoin(nick: string, user: string, host: string)
    requires IsNickname(nick) && IsChanString(user) && IsLooseHostname(host)
    ensures var origin := nick + "!" + user + "@" + host;
      ParseLine(":" + origin + " " + "JOIN #foo") == Ok(Command(Some(origin), Join(["#foo"], None)))
  {
    var origin := nick + "!" + user + "@" + host;
    NickUserHostAccepted(nick, user, host);
    NickUserHostOneWord(nick, user, host);
    JoinOneChannelLine();
    PrefixAddsOrigin(origin, "JOIN #foo");
  }

  /** A prefixed JOIN line with a typical `nick!user@host` origin. */
  lemma PrefixedJoinLine()
    ensures ParseLine(":" + ("nvx-23" + "!" + "nvx" + "@" + "ecs.vuw.ac.nz") + " " + "JOIN #foo")
         == Ok(Command(Some("nvx-23" + "!" + "nvx" + "@" + "ecs.vuw.ac.nz"), Join(["#foo"], None)))
  {
    SampleOriginParts();
    OriginThenJoin("nvx-23", "nvx", "ecs.vuw.ac.nz");
  }

  /** A `:` with nothing after it is not a prefix. */
  lemma EmptyPrefixLine()
    ensures ParseLine(": JOIN #foo") == Err(BadToken(""))
  {
    var line := ": JOIN #foo";
    assert ' ' !in line[..1] && line[1] == ' ';
    PrefixIsFirstWord(line, 1);
    assert line[1..1] == "";
    assert !IsServername("");
  }
}
