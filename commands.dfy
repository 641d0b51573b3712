/** The value the parser produces: an optional origin prefix and one of six
    command kinds. Dafny datatypes compare structurally, as the derived
    `PartialEq` of the Rust types does. */
module Commands {
  import opened Wrappers

  /** One variant per verb, each with only the fields that verb defines.
      `Join` keeps the channels in order and an optional key list whose length
      is not tied to the channel list; `User` has no mode field. */
  datatype CommandKind =
    | Join(channels: seq<string>, keys: Option<seq<string>>)
    | Nick(nickname: string)
    | User(username: string, fullName: string)
    | Ping(sourceServer: string, targetServer: Option<string>)
    | PrivMsg(messageTarget: string, messageText: string)
    | Quit(quitMessage: Option<string>)

  datatype Command = Command(prefix: Option<string>, kind: CommandKind)

  /** The lower-case verbs the parser dispatches on, one per kind. */
  const Verbs: seq<string> := ["join", "nick", "user", "ping", "privmsg", "quit"]

  /** The verb that names a kind. */
  function KindVerb(kind: CommandKind): (verb: string)
    ensures verb in Verbs
  {
    match kind
    case Join(_, _) => "join"
    case Nick(_) => "nick"
    case User(_, _) => "user"
    case Ping(_, _) => "ping"
    case PrivMsg(_, _) => "privmsg"
    case Quit(_) => "quit"
  }

  /** There are exactly six kinds: every verb names some kind, and kinds
      named by the same verb are built by the same constructor. */
  lemma KindsMatchVerbs()
    ensures forall verb | verb in Verbs :: exists kind :: KindVerb(kind) == verb
    ensures forall a, b :: KindVerb(a) == KindVerb(b) ==>
              (a.Join? == b.Join? && a.Nick? == b.Nick? && a.User? == b.User?
               && a.Ping? == b.Ping? && a.PrivMsg? == b.PrivMsg? && a.Quit? == b.Quit?)
  {
    forall verb | verb in Verbs ensures exists kind :: KindVerb(kind) == verb {
      var kind :=
        if verb == "join" then Join([], None)
        else if verb == "nick" then Nick("")
        else if verb == "user" then User("", "")
        else if verb == "ping" then Ping("", None)
        else if verb == "privmsg" then PrivMsg("", "")
        else Quit(None);
      assert KindVerb(kind) == verb;
    }
  }
}
