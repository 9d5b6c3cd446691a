/**
 * The user commands of the Tcl shell: `setnick` and `seticon` publish their one
 * argument, verbatim, under the shell user's id.
 */
module TclUser {
  import opened Wrappers
  import Text
  import opened TclTerm

  /** "user/setnick" / id, joined as a `std::filesystem::path`. */
  function SetNickTopic(userId: string): (t: string)
    ensures 1 <= |userId| && userId[0] != '/' ==> t == "user/setnick/" + userId
  {
    Text.Join("user/setnick", userId)
  }

  /** "user/seticon" / id, joined as a `std::filesystem::path`. */
  function SetIconTopic(userId: string): (t: string)
    ensures 1 <= |userId| && userId[0] != '/' ==> t == "user/seticon/" + userId
  {
    Text.Join("user/seticon", userId)
  }

  /**
   * `setnick nick`: with exactly one argument, publishes it to the user's nick
   * topic; with any other count, sets an error and publishes nothing.
   */
  function SetNick(args: seq<string>, userId: string): (r: Outcome)
    ensures r.error.None? <==> |args| == 1
    ensures |args| != 1 ==> r == Outcome(Some(ExpectedNick), [])
    ensures |args| == 1 ==> r.effects == [Publish(SetNickTopic(userId), args[0])]
    ensures |args| == 1 && (|userId| == 0 || userId[0] != '/') ==>
              r.effects[0].topic == "user/setnick/" + userId
  {
    if |args| != 1 then Outcome(Some(ExpectedNick), [])
    else Outcome(None, [Publish(SetNickTopic(userId), args[0])])
  }

  /**
   * `seticon icon`: with exactly one argument, publishes it to the user's icon
   * topic; with any other count, sets an error and publishes nothing.
   */
  function SetIcon(args: seq<string>, userId: string): (r: Outcome)
    ensures r.error.None? <==> |args| == 1
    ensures |args| != 1 ==> r == Outcome(Some(ExpectedIcon), [])
    ensures |args| == 1 ==> r.effects == [Publish(SetIconTopic(userId), args[0])]
    ensures |args| == 1 && (|userId| == 0 || userId[0] != '/') ==>
              r.effects[0].topic == "user/seticon/" + userId
  {
    if |args| != 1 then Outcome(Some(ExpectedIcon), [])
    else Outcome(None, [Publish(SetIconTopic(userId), args[0])])
  }

  /**
   * For an id without separators, the published topic splits back into the
   * command path and the id, the way a subscriber decodes it.
   */
  lemma SetNickTopicSplits(userId: string)
    requires '/' !in userId
    ensures Text.FileName(SetNickTopic(userId)) == userId
    ensures Text.ParentPath(SetNickTopic(userId)) == "user/setnick"
    ensures Text.FileName(SetIconTopic(userId)) == userId
    ensures Text.ParentPath(SetIconTopic(userId)) == "user/seticon"
  {
    Text.JoinSplits("user/setnick", userId);
    Text.JoinSplits("user/seticon", userId);
  }
}
