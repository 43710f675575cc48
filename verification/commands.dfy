/**
 * The administrator commands `/add_admin`, `/ban` and `/add_points`: how a
 * text message is read as one of them, word by word.
 */
module Commands {
  import opened Base
  import opened Text

  /** An administrator command as read from the words of the message. */
  datatype Command =
    | AddAdmin(target: string)
    | Ban(target: string, reason: string)
    | AddPoints(target: string, amount: int)
    | NoCommand

  const ADD_ADMIN_COMMAND := "/add_admin"
  const BAN_COMMAND := "/ban"
  const ADD_POINTS_COMMAND := "/add_points"

  /**
   * `/add_admin <who>`, `/ban <who> <reason...>` and `/add_points <who> <n>`,
   * recognised by prefix in that order, with every `@` removed from `<who>`;
   * too few words, or an amount that is not a number, is no command.
   */
  function ParseCommand(text: string): (c: Command)
    ensures c.AddAdmin? ==> StartsWith(text, ADD_ADMIN_COMMAND) && |Words(text)| >= 2 && c.target == RemoveChar(Words(text)[1], '@')
    ensures c.Ban? ==> StartsWith(text, BAN_COMMAND) && |Words(text)| >= 3
                       && c.target == RemoveChar(Words(text)[1], '@') && c.reason == Join(Words(text)[2..], " ")
    ensures c.AddPoints? ==> StartsWith(text, ADD_POINTS_COMMAND) && |Words(text)| >= 3
                             && c.target == RemoveChar(Words(text)[1], '@') && ParseInt(Words(text)[2]) == Some(c.amount)
    ensures !StartsWith(text, ADD_ADMIN_COMMAND) && !StartsWith(text, BAN_COMMAND) && !StartsWith(text, ADD_POINTS_COMMAND) ==> c.NoCommand?
  {
    var parts := Words(text);
    if StartsWith(text, ADD_ADMIN_COMMAND) then
      if |parts| < 2 then NoCommand else AddAdmin(RemoveChar(parts[1], '@'))
    else if StartsWith(text, BAN_COMMAND) then
      if |parts| < 3 then NoCommand else Ban(RemoveChar(parts[1], '@'), Join(parts[2..], " "))
    else if StartsWith(text, ADD_POINTS_COMMAND) then
      if |parts| < 3 then NoCommand
      else match ParseInt(parts[2])
        case None => NoCommand
        case Some(p) => AddPoints(RemoveChar(parts[1], '@'), p)
    else NoCommand
  }

  /** The command words hold no whitespace. */
  lemma CommandWordsHaveNoSpace()
    ensures NoSpace(ADD_ADMIN_COMMAND) && NoSpace(BAN_COMMAND) && NoSpace(ADD_POINTS_COMMAND)
  {
  }

  /** Each pair of command words differs at an index within both. */
  lemma CommandWordsDiffer()
    ensures ADD_POINTS_COMMAND[5] != ADD_ADMIN_COMMAND[5]
    ensures ADD_POINTS_COMMAND[1] != BAN_COMMAND[1]
    ensures BAN_COMMAND[1] != ADD_ADMIN_COMMAND[1]
  {
  }
}
