/**
 * The two errors of ahc_tools/exc.py. Each carries one message formatted
 * from the original error text and the place the failure concerns.
 */
module Exc {
  const LoadFailedPrefix: string := "Unable to load the state file in "
  const MatchFailedPrefix: string := "Failed to match node uuid: "
  const ErrorWas: string := ". Error was: "

  datatype AhcError =
    | LoadFailedError(message: string)
    | MatchFailedError(message: string)

  /**
   * LoadFailedError(o_msg, conf_dir): the prefix, then the configuration
   * directory, then ". Error was: " and the original message, in that order
   * and with nothing else.
   */
  function LoadFailed(oMsg: string, confDir: string): (e: AhcError)
    ensures e.LoadFailedError?
    ensures |e.message| == |LoadFailedPrefix| + |confDir| + |ErrorWas| + |oMsg|
    ensures e.message[..|LoadFailedPrefix|] == LoadFailedPrefix
    ensures e.message[|LoadFailedPrefix|..|LoadFailedPrefix| + |confDir|] == confDir
    ensures e.message[|LoadFailedPrefix| + |confDir|..] == ErrorWas + oMsg
  {
    LoadFailedError(LoadFailedPrefix + confDir + ErrorWas + oMsg)
  }

  /**
   * MatchFailedError(o_msg, uuid): the prefix, then the node's uuid, then
   * ". Error was: " and the original message.
   */
  function MatchFailed(oMsg: string, uuid: string): (e: AhcError)
    ensures e.MatchFailedError?
    ensures |e.message| == |MatchFailedPrefix| + |uuid| + |ErrorWas| + |oMsg|
    ensures e.message[..|MatchFailedPrefix|] == MatchFailedPrefix
    ensures e.message[|MatchFailedPrefix|..|MatchFailedPrefix| + |uuid|] == uuid
    ensures e.message[|MatchFailedPrefix| + |uuid|..] == ErrorWas + oMsg
  {
    MatchFailedError(MatchFailedPrefix + uuid + ErrorWas + oMsg)
  }

  /** Both messages end with the original error text, so the cause is never lost. */
  lemma CauseIsKept(oMsg: string, where: string)
    ensures var m := LoadFailed(oMsg, where).message; m[|m| - |oMsg|..] == oMsg
    ensures var m := MatchFailed(oMsg, where).message; m[|m| - |oMsg|..] == oMsg
  {
    var tail := ErrorWas + oMsg;
    assert tail[|ErrorWas|..] == oMsg;
    var m := LoadFailed(oMsg, where).message;
    assert m[|m| - |oMsg|..] == m[|LoadFailedPrefix| + |where|..][|ErrorWas|..];
    var n := MatchFailed(oMsg, where).message;
    assert n[|n| - |oMsg|..] == n[|MatchFailedPrefix| + |where|..][|ErrorWas|..];
  }

  /** Given where the failure happened, the message determines the original text. */
  lemma CauseIsRecoverable(o1: string, o2: string, where: string)
    ensures LoadFailed(o1, where) == LoadFailed(o2, where) ==> o1 == o2
    ensures MatchFailed(o1, where) == MatchFailed(o2, where) ==> o1 == o2
  {
    CauseIsKept(o1, where);
    CauseIsKept(o2, where);
  }

  /**
   * The two kinds can be told apart from their text alone: a load failure
   * starts with "Unable to load", a match failure with "Failed to match".
   */
  lemma KindsDifferByPrefix(o1: string, confDir: string, o2: string, uuid: string)
    ensures LoadFailed(o1, confDir).message[..14] == "Unable to load"
    ensures MatchFailed(o2, uuid).message[..15] == "Failed to match"
    ensures LoadFailed(o1, confDir).message != MatchFailed(o2, uuid).message
  {
    var l := LoadFailed(o1, confDir).message;
    var m := MatchFailed(o2, uuid).message;
    assert l[..14] == LoadFailedPrefix[..14];
    assert m[..15] == MatchFailedPrefix[..15];
    assert l[0] == 'U' && m[0] == 'F';
  }
}
