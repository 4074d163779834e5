/** Splitting and joining of delimited text, and the messages and log records that are carried that way. */
module Messages {
  import opened Base

  // ----- Splitting -----

  /** What one more character does to the pieces read so far. */
  function ReadOn(ps: seq<Text>, c: Code, d: Code, limit: nat): seq<Text>
    requires ps != []
  {
    if c == d && (limit == 0 || |ps| <= limit) then ps + [[]]
    else ps[..|ps| - 1] + [ps[|ps| - 1] + [c]]
  }

  lemma ReadOnLast(init: seq<Text>, last: Text, c: Code, d: Code, limit: nat)
    ensures ReadOn(init + [last], c, d, limit)
         == if c == d && (limit == 0 || |init| < limit) then init + [last] + [[]] else init + [last + [c]]
  {
    assert (init + [last])[..|init|] == init;
  }

  /**
   * The pieces between delimiters, read from left to right; a positive limit ends the splitting after so
   * many delimiters.
   */
  function Pieces(s: Text, d: Code, limit: nat): (ps: seq<Text>)
    ensures ps != [] && (limit > 0 ==> |ps| <= limit + 1)
  {
    if s == [] then [[]] else ReadOn(Pieces(s[..|s| - 1], d, limit), s[|s| - 1], d, limit)
  }

  lemma PiecesOfOneMore(s: Text, c: Code, d: Code, limit: nat)
    ensures Pieces(s + [c], d, limit) == ReadOn(Pieces(s, d, limit), c, d, limit)
  {
    assert (s + [c])[..|s|] == s;
  }

  /** `delimSepNoCpy` and `delimSepMaxDelim` return no piece at all for the empty text. */
  function Fields(s: Text, d: Code, limit: nat): seq<Text> {
    if s == [] then [] else Pieces(s, d, limit)
  }

  function Join(ps: seq<Text>, d: Code): Text {
    if ps == [] then [] else if |ps| == 1 then ps[0] else Join(ps[..|ps| - 1], d) + [d] + ps[|ps| - 1]
  }

  lemma JoinMore(ps: seq<Text>, d: Code, p: Text)
    requires ps != []
    ensures Join(ps + [p], d) == Join(ps, d) + [d] + p
  {
    assert (ps + [p])[..|ps|] == ps;
  }

  lemma JoinLonger(ps: seq<Text>, d: Code, p: Text, c: Code)
    ensures Join(ps + [p + [c]], d) == Join(ps + [p], d) + [c]
  {
    if ps != [] {
      JoinMore(ps, d, p);
      JoinMore(ps, d, p + [c]);
    }
  }

  /** Splitting loses nothing: joining the pieces gives the text back, whatever the limit. */
  lemma {:induction false} JoinOfFields(s: Text, d: Code, limit: nat)
    ensures Join(Fields(s, d, limit), d) == s
  {
    if s != [] { JoinOfPieces(s, d, limit); }
  }

  lemma {:induction false} JoinOfPieces(s: Text, d: Code, limit: nat)
    ensures Join(Pieces(s, d, limit), d) == s
  {
    if s != [] {
      var init, c := s[..|s| - 1], s[|s| - 1];
      var ps := Pieces(init, d, limit);
      JoinOfPieces(init, d, limit);
      assert s == init + [c];
      if c == d && (limit == 0 || |ps| <= limit) {
        JoinMore(ps, d, []);
      } else {
        JoinLonger(ps[..|ps| - 1], d, ps[|ps| - 1], c);
        assert ps == ps[..|ps| - 1] + [ps[|ps| - 1]];
      }
    }
  }

  lemma LongerBy(init: seq<Text>, last: Text, c: Code, d: Code, limit: nat)
    requires c != d || (limit > 0 && |init| >= limit)
    requires var ps := init + [last]; Pieces(Join(ps, d), d, limit) == ps
    ensures var ps := init + [last + [c]]; Pieces(Join(ps, d), d, limit) == ps
  {
    JoinLonger(init, d, last, c);
    PiecesOfOneMore(Join(init + [last], d), c, d, limit);
    ReadOnLast(init, last, c, d, limit);
  }

  lemma EmptyLast(init: seq<Text>, d: Code, limit: nat)
    requires init != [] && Pieces(Join(init, d), d, limit) == init
    requires limit == 0 || |init| <= limit
    ensures Pieces(Join(init + [[]], d), d, limit) == init + [[]]
  {
    JoinMore(init, d, []);
    assert Join(init, d) + [d] + [] == Join(init, d) + [d];
    PiecesOfOneMore(Join(init, d), d, d, limit);
  }

  /** Splitting undoes joining of delimiter-free pieces; the last may hold delimiters if the limit was met. */
  lemma {:induction false} PiecesOfJoin(init: seq<Text>, last: Text, d: Code, limit: nat)
    requires limit == 0 || |init| <= limit
    requires forall p <- init :: d !in p
    requires d !in last || (limit > 0 && |init| == limit)
    ensures Pieces(Join(init + [last], d), d, limit) == init + [last]
    decreases |init|, |last|
  {
    if last != [] {
      var shorter, c := last[..|last| - 1], last[|last| - 1];
      PiecesOfJoin(init, shorter, d, limit);
      LongerBy(init, shorter, c, d, limit);
      assert shorter + [c] == last;
    } else if init == [] {
      assert init + [last] == [[]];
    } else {
      var before, next := init[..|init| - 1], init[|init| - 1];
      PiecesOfJoin(before, next, d, limit);
      assert before + [next] == init;
      EmptyLast(init, d, limit);
    }
  }

  /**
   * `delimSepNoCpy` (limit 0), `delimSepMaxDelim` and the loader's splitter (limit 2).  The source marks the
   * ends of the pieces with NULs in the text itself; here the pieces are values.
   */
  method Split(s: Text, d: Code, limit: nat) returns (outs: seq<Text>)
    ensures outs == Fields(s, d, limit)
  {
    outs := [];
    if |s| == 0 { return; }
    var i, start := 0, 0;
    assert s[..0] == [] && Pieces(s[..0], d, limit) == [[]] && s[0..0] == [] && outs + [s[0..0]] == [[]];
    hide Pieces;
    while i < |s|
      invariant 0 <= start <= i <= |s|
      invariant limit == 0 || |outs| < limit
      invariant Pieces(s[..i], d, limit) == outs + [s[start..i]]
    {
      SplitStep(s, i, start, outs, d, limit);
      if s[i] == d {
        outs := outs + [s[start..i]];
        start := i + 1;
        if |outs| == limit {
          RestStaysWhole(s, i + 1, start, outs, d, limit);
          break;
        }
      }
      i := i + 1;
    }
    if i == |s| { assert s[..i] == s && s[start..i] == s[start..]; }
    outs := outs + [s[start..]];
  }

  lemma SplitStep(s: Text, i: nat, start: nat, outs: seq<Text>, d: Code, limit: nat)
    requires start <= i < |s| && (limit == 0 || |outs| < limit)
    requires Pieces(s[..i], d, limit) == outs + [s[start..i]]
    ensures Pieces(s[..i + 1], d, limit)
         == if s[i] == d then outs + [s[start..i]] + [s[i + 1..i + 1]] else outs + [s[start..i + 1]]
  {
    PiecesOfOneMore(s[..i], s[i], d, limit);
    ReadOnLast(outs, s[start..i], s[i], d, limit);
    assert s[..i + 1] == s[..i] + [s[i]] && s[start..i + 1] == s[start..i] + [s[i]];
    assert s[i + 1..i + 1] == [];
  }

  lemma {:induction false} RestStaysWhole(s: Text, i: nat, start: nat, outs: seq<Text>, d: Code, limit: nat)
    requires start <= i <= |s| && |outs| == limit > 0
    requires Pieces(s[..i], d, limit) == outs + [s[start..i]]
    ensures Pieces(s, d, limit) == outs + [s[start..]]
    decreases |s| - i
  {
    if i == |s| {
      assert s[..i] == s && s[start..i] == s[start..];
    } else {
      PiecesOfOneMore(s[..i], s[i], d, limit);
      ReadOnLast(outs, s[start..i], s[i], d, limit);
      assert s[..i + 1] == s[..i] + [s[i]] && s[start..i + 1] == s[start..i] + [s[i]];
      RestStaysWhole(s, i + 1, start, outs, d, limit);
    }
  }

  // ----- Commands between the loader and the server -----

  datatype Command = Command(transID: Text, userCmd: Text, user: Text, args: Option<Text>)

  const NEWLINE: Code := 10
  const RETURN: Code := 13
  const WSC: Text := [87, 83, 67]

  /** `sprintf` of "WSC|%ld|%s|%s" or "WSC|%ld|%s|%s,%s". */
  function Format(c: Command): Text {
    Join([WSC, c.transID, c.userCmd, UserAndArgs(c)], BAR)
  }

  function UserAndArgs(c: Command): Text {
    if c.args.None? then c.user else c.user + [COMMA] + c.args.value
  }

  function DropLast(s: Text, c: Code): Text {
    if s != [] && s[|s| - 1] == c then s[..|s| - 1] else s
  }

  /** The server's trimming of the received bytes, after the NUL: at most one of each, in this order. */
  function Trim(s: Text): Text {
    DropLast(DropLast(DropLast(s, NEWLINE), RETURN), SPACE)
  }

  predicate EndsPlain(s: Text) {
    s == [] || (s[|s| - 1] != NEWLINE && s[|s| - 1] != RETURN && s[|s| - 1] != SPACE)
  }

  /**
   * What is trimmed off a text is a space, a carriage return and a line feed, each if it is there, in this order; a
   * line feed before a carriage return stays.
   */
  lemma TrimmedEnds(s: Text, space: bool, cr: bool, lf: bool)
    requires EndsPlain(s)
    ensures Trim(s + (if space then [SPACE] else []) + (if cr then [RETURN] else []) + (if lf then [NEWLINE] else [])) == s
    ensures Trim(s + [NEWLINE, RETURN]) == s + [NEWLINE]
  {
    hide DropLast;
    var s1 := s + (if space then [SPACE] else []);
    var s2 := s1 + (if cr then [RETURN] else []);
    DropsLast(s2, NEWLINE, lf);
    DropsLast(s1, RETURN, cr);
    DropsLast(s, SPACE, space);
    FeedBeforeReturn(s);
  }

  lemma FeedBeforeReturn(s: Text)
    ensures Trim(s + [NEWLINE, RETURN]) == s + [NEWLINE]
  {
    var t := s + [NEWLINE];
    assert s + [NEWLINE, RETURN] == t + [RETURN];
    assert DropLast(t + [RETURN], NEWLINE) == t + [RETURN] && DropLast(t, SPACE) == t;
    DropsLast(t, RETURN, true);
  }

  lemma DropsLast(s: Text, c: Code, there: bool)
    requires there || s == [] || s[|s| - 1] != c
    ensures DropLast(s + (if there then [c] else []), c) == s
  {
    if there { assert (s + [c])[..|s|] == s; } else { assert s + [] == s; }
  }

  /** How the server takes a message apart; only messages of four fields are modelled. */
  function Parse(message: Text): Option<Command> {
    var fields := Fields(Trim(message), BAR, 0);
    if |fields| != 4 || fields[0] != WSC then None
    else
      var userAndArgs := Fields(fields[3], COMMA, 1);
      Some(Command(fields[1], fields[2],
                   if userAndArgs == [] then fields[3] else userAndArgs[0],
                   if |userAndArgs| == 2 then Some(userAndArgs[1]) else None))
  }

  /** A command whose fields do not contain the characters that separate them. */
  predicate Separable(c: Command) {
    && BAR !in c.transID && BAR !in c.userCmd && BAR !in c.user && COMMA !in c.user
    && (c.args.Some? ==> BAR !in c.args.value)
  }

  lemma ParseOfTrimmed(c: Command)
    requires Separable(c) && Trim(Format(c)) == Format(c)
    ensures Parse(Format(c)) == Some(c)
  {
    hide Trim, Format, Fields;
    FieldsOfFormat(c);
    ParseOfUser(c);
    var fields := Fields(Trim(Format(c)), BAR, 0);
    assert fields[3] == UserAndArgs(c);
    assert c.args.None? ==> UserAndArgs(c) == c.user;
    assert UserAndArgs(c) == [] ==> c == Command(c.transID, c.userCmd, [], None);
  }

  lemma FieldsOfFormat(c: Command)
    requires Separable(c)
    ensures Fields(Format(c), BAR, 0) == [WSC, c.transID, c.userCmd, UserAndArgs(c)]
  {
    var u := UserAndArgs(c);
    PiecesOfJoin([WSC, c.transID, c.userCmd], u, BAR, 0);
    assert [WSC, c.transID, c.userCmd] + [u] == [WSC, c.transID, c.userCmd, u];
    FormatEnds(c);
  }

  lemma ParseOfUser(c: Command)
    requires COMMA !in c.user
    ensures var u := UserAndArgs(c);
      Fields(u, COMMA, 1) == if u == [] then [] else if c.args.None? then [c.user] else [c.user, c.args.value]
  {
    if c.args.Some? {
      JoinMore([c.user], COMMA, c.args.value);
      PiecesOfJoin([c.user], c.args.value, COMMA, 1);
    } else {
      PiecesOfJoin([], c.user, COMMA, 1);
      assert [] + [c.user] == [c.user];
    }
  }

  /** The last character of a formatted command is the last of its last part, or a separator. */
  lemma FormatEnds(c: Command)
    ensures var f, u := Format(c), UserAndArgs(c);
      f != [] && f[|f| - 1] == if u != [] then u[|u| - 1] else BAR
  {
    JoinMore([WSC, c.transID, c.userCmd], BAR, UserAndArgs(c));
  }

  /**
   * A command reaches the server unchanged exactly when its last character is not one that the server trims.
   * An argument may hold commas; a missing argument and an empty one stay apart.
   */
  lemma CommandRoundTrip(c: Command)
    requires Separable(c)
    ensures Parse(Format(c)) == Some(c) <==>
      var f := Format(c); f[|f| - 1] !in [NEWLINE, RETURN, SPACE]
  {
    FormatEnds(c);
    var f := Format(c);
    if f[|f| - 1] !in [NEWLINE, RETURN, SPACE] {
      ParseOfTrimmed(c);
    } else {
      assert |Trim(f)| < |f|;
      ParsedJoinsBack(f);
    }
  }

  /** A command that was read prints as the text it was read from. */
  lemma ParsedJoinsBack(message: Text)
    ensures Parse(message).Some? ==> Format(Parse(message).value) == Trim(message)
  {
    if Parse(message).Some? {
      var fields, c := Fields(Trim(message), BAR, 0), Parse(message).value;
      JoinOfFields(Trim(message), BAR, 0);
      FieldsOfParsed(fields[3], c);
      FourFields(fields, c);
    }
  }

  lemma FourFields(fields: seq<Text>, c: Command)
    requires |fields| == 4 && fields[0] == WSC && fields[1] == c.transID && fields[2] == c.userCmd
    requires fields[3] == UserAndArgs(c)
    ensures Format(c) == Join(fields, BAR)
  {
    assert fields == [fields[0], fields[1], fields[2], fields[3]];
  }

  /** The user and the argument that a field was split into are the field again. */
  lemma FieldsOfParsed(field: Text, c: Command)
    requires var ua := Fields(field, COMMA, 1);
      && c.user == (if ua == [] then field else ua[0])
      && c.args == (if |ua| == 2 then Some(ua[1]) else None)
    ensures field == UserAndArgs(c)
  {
    JoinOfFields(field, COMMA, 1);
    var ua := Fields(field, COMMA, 1);
    if |ua| == 2 { JoinMore([ua[0]], COMMA, ua[1]); }
  }

  // ----- Log records -----

  datatype UserCommandRecord = UserCommandRecord(
    timestamp: Text, server: Text, transID: Text, command: Text,
    username: Option<Text>, stock: Option<Text>, filename: Option<Text>, funds: Option<Text>)

  /** An omitted field is logged as one space. */
  function Optional(field: Option<Text>): Text {
    if field.None? then [SPACE] else field.value
  }

  /** The log server takes a field that begins with a space as omitted. */
  function Recovered(field: Text): Option<Text> {
    if field != [] && field[0] == SPACE then None else Some(field)
  }

  const USER_CMD: Text := [117, 115, 101, 114, 67, 109, 100]

  /** The `userCmd` record as the transaction server prints it. */
  function LogFields(r: UserCommandRecord): seq<Text> {
    [USER_CMD, r.timestamp, r.server, r.transID, r.command,
     Optional(r.username), Optional(r.stock), Optional(r.filename), Optional(r.funds)]
  }

  /** What the log server reads out of a `userCmd` record. */
  function ReadLog(record: Text): Option<UserCommandRecord> {
    var f := Fields(record, COMMA, 0);
    if |f| < 9 || f[0] != USER_CMD then None
    else Some(UserCommandRecord(f[1], f[2], f[3], f[4], Recovered(f[5]), Recovered(f[6]), Recovered(f[7]), Recovered(f[8])))
  }

  predicate LeadingSpace(field: Option<Text>) {
    field.Some? && field.value != [] && field.value[0] == SPACE
  }

  lemma RecoveredExactly(field: Option<Text>)
    ensures Recovered(Optional(field)) == field <==> !LeadingSpace(field)
  {
  }

  lemma LogSplits(fs: seq<Text>)
    requires |fs| == 9 && forall f :: f in fs ==> COMMA !in f
    ensures Fields(Join(fs, COMMA), COMMA, 0) == fs
  {
    assert fs == fs[..8] + [fs[8]];
    PiecesOfJoin(fs[..8], fs[8], COMMA, 0);
    JoinMore(fs[..8], COMMA, fs[8]);
  }

  /** A comma-free record is read back as written exactly when no supplied optional field begins with a space. */
  lemma LogRoundTrip(r: UserCommandRecord)
    requires forall f :: f in LogFields(r) ==> COMMA !in f
    ensures ReadLog(Join(LogFields(r), COMMA)) == Some(r) <==>
      !(LeadingSpace(r.username) || LeadingSpace(r.stock) || LeadingSpace(r.filename) || LeadingSpace(r.funds))
  {
    LogSplits(LogFields(r));
    RecoveredExactly(r.username);
    RecoveredExactly(r.stock);
    RecoveredExactly(r.filename);
    RecoveredExactly(r.funds);
  }
}
