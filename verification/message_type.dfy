/** The five message kinds the server sends, read from their `messagetype` names. */
module MessageTypes {
  import opened Wrappers

  datatype MessageType = Welcome | StateUpdate | Dead | EndOfRound | StartOfRound

  datatype MessageTypeError = UnknownType

  /** The exact, lower-case name the server uses for each kind. */
  function Name(t: MessageType): string
  {
    match t
    case Welcome => "welcome"
    case StateUpdate => "stateupdate"
    case Dead => "dead"
    case EndOfRound => "endofround"
    case StartOfRound => "startofround"
  }

  /**
    Reads a message kind from its name: a string is accepted exactly when it is
    the name of a kind, and then yields that kind; anything else is `UnknownType`.
  */
  function FromStr(s: string): (r: Result<MessageType, MessageTypeError>)
    ensures r.Ok? ==> Name(r.value) == s
    ensures r.Err? ==> r.error == UnknownType && forall t :: Name(t) != s
  {
    match s
    case "welcome" => Ok(Welcome)
    case "stateupdate" => Ok(StateUpdate)
    case "dead" => Ok(Dead)
    case "endofround" => Ok(EndOfRound)
    case "startofround" => Ok(StartOfRound)
    case _ => Err(UnknownType)
  }

  /** Every kind is read back from its own name. */
  lemma FromStrName(t: MessageType)
    ensures FromStr(Name(t)) == Ok(t)
  {
  }

  /** Distinct accepted names give distinct kinds. */
  lemma FromStrInjective(s: string, s': string)
    requires FromStr(s).Ok? && FromStr(s') == FromStr(s)
    ensures s == s'
  {
  }

  /** Names are matched exactly: the capitalised forms are unknown. */
  lemma FromStrIsCaseSensitive()
    ensures FromStr("Welcome") == Err(UnknownType)
    ensures FromStr("STATEUPDATE") == Err(UnknownType)
    ensures FromStr("Dead") == Err(UnknownType)
    ensures FromStr("EndOfRound") == Err(UnknownType)
    ensures FromStr("StartOfRound") == Err(UnknownType)
    ensures FromStr("") == Err(UnknownType)
  {
  }
}
