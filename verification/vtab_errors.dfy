/**
  Errors of the virtual-table registration path: `errstr`, which builds an
  `*Error` from a result code and the engine's two messages, and
  `create_module`, which maps the native registration status to an error.
 */
module VtabErrors {
  import opened Base
  import opened Decimal

  /** The ` (<rc>)` suffix `errstr` puts at the end of every message. */
  function CodeSuffix(rc: int): (r: string) {
    " (" + IntToString(rc) + ")"
  }

  /**
    `errstr`: `codeText` is the engine's generic text for `rc`
    (`sqlite3_errstr`), `dbMsg` the connection's latest message
    (`sqlite3_errmsg`). The connection's message is appended only when it
    says something the generic text does not.
   */
  function Errstr(codeText: string, dbMsg: string, rc: int32): (e: Error)
    ensures e.SqliteError? && e.code == rc
  {
    if dbMsg == codeText then SqliteError(rc, codeText + CodeSuffix(rc))
    else SqliteError(rc, codeText + ": " + dbMsg + CodeSuffix(rc))
  }

  /** The index of the last occurrence of `c` in `s`, if any. */
  function LastIndexOf(s: string, c: char): (r: Option<nat>)
    ensures r.Some? ==> r.value < |s| && s[r.value] == c && forall j :: r.value < j < |s| ==> s[j] != c
    ensures r.None? ==> forall j :: 0 <= j < |s| ==> s[j] != c
  {
    if |s| == 0 then None
    else if s[|s| - 1] == c then Some(|s| - 1)
    else LastIndexOf(s[..|s| - 1], c)
  }

  /**
    Reads the code back from the end of an `errstr` message: the signed
    decimal between the last ` (` and the closing `)`.
   */
  function ParseTrailingCode(s: string): (r: Option<int>) {
    if |s| == 0 || s[|s| - 1] != ')' then None
    else
      match LastIndexOf(s[..|s| - 1], '(')
      case None => None
      case Some(i) => if i > 0 && s[i - 1] == ' ' then ParseInt(s[i + 1..|s| - 1]) else None
  }

  lemma IntToStringHasNoParen(i: int)
    ensures forall j :: 0 <= j < |IntToString(i)| ==> IntToString(i)[j] != '('
  {
    if i < 0 {
      NatToStringShape(-i);
      assert forall j :: 1 <= j < |IntToString(i)| ==> IntToString(i)[j] == NatToString(-i)[j - 1];
    } else {
      NatToStringShape(i);
    }
  }

  /** Whatever precedes it, a code suffix reads back as the code. */
  lemma TrailingCodeRoundTrip(prefix: string, rc: int)
    ensures ParseTrailingCode(prefix + CodeSuffix(rc)) == Some(rc)
  {
    var t := IntToString(rc);
    var s := prefix + " (" + t + ")";
    assert prefix + CodeSuffix(rc) == s;
    var body := s[..|s| - 1];
    assert body == prefix + " (" + t;
    var open := |prefix| + 1;
    assert body[open] == '(';
    IntToStringHasNoParen(rc);
    assert forall j :: open < j < |body| ==> body[j] == t[j - open - 1];
    var r := LastIndexOf(body, '(');
    assert r == Some(open);
    assert s[open - 1] == ' ';
    assert s[open + 1..|s| - 1] == t;
    IntToStringRoundTrip(rc);
  }

  /**
    The message of `errstr` starts with the generic text, ends with the code
    in parentheses (which reads back as `rc`), and carries `: <dbMsg>` in
    between exactly when the connection's message differs from the generic
    text.
   */
  lemma ErrstrMessage(codeText: string, dbMsg: string, rc: int32)
    ensures var e := Errstr(codeText, dbMsg, rc);
            && |codeText| <= |e.msg| && e.msg[..|codeText|] == codeText
            && ParseTrailingCode(e.msg) == Some(rc as int)
            && (dbMsg == codeText <==> e.msg == codeText + CodeSuffix(rc))
            && (dbMsg != codeText ==> e.msg[|codeText|..] == ": " + dbMsg + CodeSuffix(rc))
  {
    var e := Errstr(codeText, dbMsg, rc);
    if dbMsg == codeText {
      TrailingCodeRoundTrip(codeText, rc);
    } else {
      var head := codeText + ": " + dbMsg;
      assert e.msg == head + CodeSuffix(rc);
      TrailingCodeRoundTrip(head, rc);
      assert e.msg[..|codeText|] == codeText;
      assert e.msg[|codeText|..] == ": " + dbMsg + CodeSuffix(rc);
      assert e.msg[|codeText|] == ':';
      assert (codeText + CodeSuffix(rc))[|codeText|] == ' ';
    }
  }

  /** The native registrar's answer: the C-string conversion of the name, then the call's status. */
  datatype RegisterReply = RegisterReply(conv: Attempt, rc: int32, codeText: string, dbMsg: string)

  /**
    `create_module`: nil exactly when the name converts and the native call
    returns OK; a conversion error is returned as is; a native failure goes
    through `errstr` and keeps its code.
   */
  function CreateModuleNative(reply: RegisterReply): (r: Option<Error>)
    ensures r.None? <==> reply.conv.Ok? && reply.rc == SQLITE_OK
    ensures reply.conv.Fail? ==> r == Some(reply.conv.err)
    ensures reply.conv.Ok? && reply.rc != SQLITE_OK ==>
              r == Some(Errstr(reply.codeText, reply.dbMsg, reply.rc)) && r.value.code == reply.rc
  {
    if reply.conv.Fail? then Some(reply.conv.err)
    else if reply.rc != SQLITE_OK then Some(Errstr(reply.codeText, reply.dbMsg, reply.rc))
    else None
  }
}
