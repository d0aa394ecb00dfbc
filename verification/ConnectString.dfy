/** Splitting a connect string uid/pwd@tnsname into its parts. Strings are the characters
    before the terminating NUL. */
module ConnectStrings {
  import opened Wrappers

  datatype Parts = Parts(uid: string, pwd: string, tnsname: string)

  const NUL: char := '\0'

  /** The position of the first `c`, or the length. */
  function IndexOf(s: string, c: char): (i: nat)
    ensures i <= |s| && (forall k :: 0 <= k < i ==> s[k] != c) && (i < |s| ==> s[i] == c)
  {
    if s == "" || s[0] == c then 0 else 1 + IndexOf(s[1..], c)
  }

  lemma IndexIs(s: string, c: char, i: nat)
    requires i <= |s| && (forall k :: 0 <= k < i ==> s[k] != c) && (i < |s| ==> s[i] == c)
    ensures IndexOf(s, c) == i
  {
  }

  /** The three parts as written; None when there is no '@' after the first '/'. */
  function Written(s: string): (string, string, Option<string>) {
    var i := IndexOf(s, '/');
    if i == |s| then (s, "", None)
    else
      var rest := s[i + 1..];
      var j := IndexOf(rest, '@');
      (s[..i], rest[..j], if j == |rest| then None else Some(rest[j + 1..]))
  }

  /** What stands in for a missing tnsname: ORACLE_SID, one character shorter than an explicit
      name may be. */
  function Default(sid: Option<string>, bufsize: nat): string
    requires bufsize > 0
  {
    match sid
    case None => ""
    case Some(v) => if |v| < bufsize then v else v[..bufsize - 1]
  }

  /** `sqlo_split_cstring`: None is SQLO_ERROR. */
  function Split(s: string, sid: Option<string>, bufsize: nat): Option<Parts> {
    var w := Written(s);
    if bufsize == 0 || |w.0| > bufsize || |w.1| > bufsize || (w.2.Some? && |w.2.value| > bufsize) then None
    else Some(Parts(w.0, w.1, if w.2.Some? then w.2.value else Default(sid, bufsize)))
  }

  function Join(uid: string, pwd: string, tnsname: string): string {
    uid + ['/'] + pwd + ['@'] + tnsname
  }

  /** Joined parts split back exactly, whenever they fit. */
  lemma SplitJoin(uid: string, pwd: string, tnsname: string, sid: Option<string>, bufsize: nat)
    requires '/' !in uid && '@' !in pwd
    ensures Split(Join(uid, pwd, tnsname), sid, bufsize)
            == if 0 < bufsize && |uid| <= bufsize && |pwd| <= bufsize && |tnsname| <= bufsize
               then Some(Parts(uid, pwd, tnsname)) else None
  {
    hide IndexOf;
    var s := Join(uid, pwd, tnsname);
    IndexIs(s, '/', |uid|);
    assert s[..|uid|] == uid;
    var rest := s[|uid| + 1..];
    assert rest == pwd + ['@'] + tnsname;
    IndexIs(rest, '@', |pwd|);
    assert rest[..|pwd|] == pwd && rest[|pwd| + 1..] == tnsname;
  }

  /** Both separators, in that order. */
  ghost predicate Separated(s: string) {
    exists i, j :: 0 <= i < j < |s| && s[i] == '/' && s[j] == '@'
  }

  /** Any accepted string with both separators in order is the join of its parts, which are then
      the only ones it can be. */
  lemma JoinSplit(s: string, sid: Option<string>, bufsize: nat)
    requires Separated(s) && Split(s, sid, bufsize).Some?
    ensures var p := Split(s, sid, bufsize).value;
      s == Join(p.uid, p.pwd, p.tnsname) && '/' !in p.uid && '@' !in p.pwd
  {
    hide IndexOf, Default, Separated;
    WrittenWhenSeparated(s);
    var i := IndexOf(s, '/');
    var rest := s[i + 1..];
    var j := IndexOf(rest, '@');
    Rejoin(s, i, j);
  }

  lemma Rejoin(s: string, i: nat, j: nat)
    requires i < |s| && s[i] == '/' && j < |s[i + 1..]| && s[i + 1..][j] == '@'
    ensures s == Join(s[..i], s[i + 1..][..j], s[i + 1..][j + 1..])
  {
    var rest := s[i + 1..];
    assert rest == rest[..j] + ['@'] + rest[j + 1..];
    assert s == s[..i] + ['/'] + rest;
  }

  /** A server name is taken from the string exactly when it has both separators in order. So the
      documented short form uid@tnsname, which has no '/', is all user name, and the server
      comes from ORACLE_SID. */
  lemma WrittenWhenSeparated(s: string)
    ensures Written(s).2.Some? <==> Separated(s)
    ensures '/' !in s ==> Written(s) == (s, "", None)
  {
    hide IndexOf;
    var i := IndexOf(s, '/');
    if i < |s| {
      var rest := s[i + 1..];
      var j := IndexOf(rest, '@');
      if j < |rest| {
        assert s[i] == '/' && s[i + 1 + j] == '@';
      } else {
        assert forall b :: i < b < |s| ==> s[b] == rest[b - i - 1];
      }
    }
  }

  /** A string no longer than the buffers always splits. */
  lemma ShortStringsSplit(s: string, sid: Option<string>, bufsize: nat)
    requires |s| <= bufsize && bufsize > 0
    ensures Split(s, sid, bufsize).Some?
  {
  }

  /** The server name `sqlo_server_attach` connects to. */
  function ServerName(name: string, sid: Option<string>, bufsize: nat): Option<string> {
    if '@' in name || '/' in name then
      match Split(name, sid, bufsize)
      case None => None
      case Some(p) => Some(p.tnsname)
    else Some(name)
  }

  /** The server name found in an accepted string can itself be attached to. */
  lemma ServerNamed(s: string, sid: Option<string>, bufsize: nat)
    requires Split(s, sid, bufsize).Some?
    ensures ServerName(Split(s, sid, bufsize).value.tnsname, sid, bufsize).Some?
  {
    ShortStringsSplit(Split(s, sid, bufsize).value.tnsname, sid, bufsize);
  }

  /** A connect string without a server name takes it from ORACLE_SID, as far as it fits in one character less than
      `bufsize`. */
  lemma SidTaken(s: string, sid: Option<string>, bufsize: nat)
    requires !Separated(s) && Split(s, sid, bufsize).Some?
    ensures var name := Split(s, sid, bufsize).value.tnsname;
      && (sid.None? ==> name == "")
      && (sid.Some? ==> name <= sid.value && |name| == if |sid.value| < bufsize then |sid.value| else bufsize - 1)
  {
    WrittenWhenSeparated(s);
  }

  /** A user name taken from a connect string is not split again by `sqlo_session_begin`. */
  lemma UserNameWhole(s: string, sid: Option<string>, bufsize: nat)
    requires Split(s, sid, bufsize).Some?
    ensures '/' !in Split(s, sid, bufsize).value.uid
  {
  }

  /** Attaching splits its argument again when it contains a separator. The name given is the
      name connected to exactly when it has none, or when no name is written in it and ORACLE_SID,
      cut to size, happens to be the same text. */
  lemma ServerNameKept(name: string, sid: Option<string>, bufsize: nat)
    requires bufsize > 0
    ensures ServerName(name, sid, bufsize) == Some(name) <==>
      ('@' !in name && '/' !in name)
      || (!Separated(name) && Split(name, sid, bufsize).Some? && Default(sid, bufsize) == name)
  {
    WrittenWhenSeparated(name);
    if Separated(name) && Split(name, sid, bufsize).Some? {
      JoinSplit(name, sid, bufsize);
      assert |Split(name, sid, bufsize).value.tnsname| < |name|;
      var i, j :| 0 <= i < j < |name| && name[i] == '/' && name[j] == '@';
      assert '@' in name;
    }
  }

  // ------------------------------------------------------------ on C buffers

  /** The text in a buffer, up to the first NUL. */
  function Text(a: seq<char>): string {
    a[..IndexOf(a, NUL)]
  }

  /** A buffer holding `s` at `from`: `s`, then NUL. */
  ghost predicate Holds(a: seq<char>, s: string) {
    |s| < |a| && a[..|s|] == s && a[|s|] == NUL
  }

  lemma HoldsText(a: seq<char>, s: string)
    requires Holds(a, s) && NUL !in s
    ensures Text(a) == s
  {
    assert forall k :: 0 <= k < |s| ==> a[k] == a[..|s|][k];
    IndexIs(a, NUL, |s|);
  }

  /** Nothing from index `limit` on has been written. */
  ghost predicate SameFrom(was: seq<char>, now: seq<char>, limit: nat) {
    |was| == |now| && forall i :: limit <= i < |now| ==> now[i] == was[i]
  }

  /** A part that fills its buffer ends with a NUL at index `bufsize`; nothing else writes there, nor beyond. */
  ghost predicate Ends(was: seq<char>, now: seq<char>, bufsize: nat, fills: bool) {
    && SameFrom(was, now, if fills then bufsize + 1 else bufsize)
    && (fills ==> bufsize < |now| && now[bufsize] == NUL)
  }

  /** The length a buffer must have: `bufsize`, as documented, and one more for such a part. */
  predicate Room(length: nat, bufsize: nat, fills: bool) {
    bufsize <= length && (fills ==> bufsize < length)
  }

  /** One copying loop of `sqlo_split_cstring`: the characters of `s` from `from` up to `stop`. */
  method CopyPart(s: string, from: nat, stop: char, dst: array<char>, bufsize: nat) returns (ok: bool, next: nat)
    requires from <= |s| && NUL !in s && Room(dst.Length, bufsize, IndexOf(s[from..], stop) == bufsize)
    modifies dst
    ensures ok <==> IndexOf(s[from..], stop) <= bufsize
    ensures ok ==> next == from + IndexOf(s[from..], stop) && Text(dst[..]) == s[from..next]
    ensures Ends(old(dst[..]), dst[..], bufsize, IndexOf(s[from..], stop) == bufsize)
  {
    ghost var rest := s[from..];
    var n := 0;
    next := from;
    while next < |s| && s[next] != stop
      invariant from <= next <= |s| && n == next - from <= bufsize
      invariant forall k :: 0 <= k < n ==> dst[k] == rest[k] && rest[k] != stop
      invariant SameFrom(old(dst[..]), dst[..], n)
    {
      if n >= bufsize {
        assert rest[n] != stop;
        return false, next;
      }
      dst[n] := s[next];
      next := next + 1;
      n := n + 1;
    }
    IndexIs(rest, stop, n);
    dst[n] := NUL;
    ok := true;
    assert dst[..][..n] == s[from..next];
    HoldsText(dst[..], s[from..next]);
  }

  /** The user name is copied and has exactly `bufsize` characters. */
  predicate FillsUid(s: string, bufsize: nat) {
    0 < bufsize && |Written(s).0| == bufsize
  }

  /** The password is reached and has. */
  predicate FillsPwd(s: string, bufsize: nat) {
    0 < bufsize && |Written(s).0| <= bufsize && |Written(s).1| == bufsize
  }

  /** The server name is reached and has. ORACLE_SID never does. */
  predicate FillsName(s: string, bufsize: nat) {
    && 0 < bufsize && |Written(s).0| <= bufsize && |Written(s).1| <= bufsize
    && Written(s).2.Some? && |Written(s).2.value| == bufsize
  }

  /** `sqlo_split_cstring`. Buffers of `bufsize` characters, as documented, will do unless a part that is
      reached has exactly that many: its NUL goes to index `bufsize`, which nothing else ever writes,
      whether the call succeeds or fails. */
  method SplitCstring(cstr: Option<string>, uid: array?<char>, pwd: array?<char>, tnsname: array?<char>,
                      bufsize: nat, sid: Option<string>) returns (ok: bool)
    requires cstr.Some? ==> NUL !in cstr.value
    requires sid.Some? ==> NUL !in sid.value
    requires cstr.Some? && uid != null && pwd != null && tnsname != null ==>
      Buffers(cstr.value, uid, pwd, tnsname, bufsize)
    modifies uid, pwd, tnsname
    ensures cstr.None? || uid == null || pwd == null || tnsname == null ==>
      && !ok && (uid != null ==> uid[..] == old(uid[..])) && (pwd != null ==> pwd[..] == old(pwd[..]))
      && (tnsname != null ==> tnsname[..] == old(tnsname[..]))
    ensures cstr.Some? && uid != null && pwd != null && tnsname != null ==>
      SplitsInto(cstr.value, sid, uid, pwd, tnsname, bufsize, ok)
  {
    if cstr.None? || uid == null || pwd == null || tnsname == null {
      return false;
    }
    ok := SplitBuffers(cstr.value, uid, pwd, tnsname, bufsize, sid);
  }

  /** The buffers hold what is written to them, and are three. */
  ghost predicate Buffers(s: string, uid: array<char>, pwd: array<char>, tnsname: array<char>, bufsize: nat) {
    && Room(uid.Length, bufsize, FillsUid(s, bufsize)) && Room(pwd.Length, bufsize, FillsPwd(s, bufsize))
    && Room(tnsname.Length, bufsize, FillsName(s, bufsize))
    && uid != pwd && uid != tnsname && pwd != tnsname
  }

  /** A user name of exactly `bufsize` characters is accepted, and needs one more than the documented capacity. */
  lemma OneTooSmall(name: string, sid: Option<string>, bufsize: nat)
    requires '/' !in name && |name| == bufsize > 0
    ensures Split(name, sid, bufsize).Some? && !Room(bufsize, bufsize, FillsUid(name, bufsize))
  {
    IndexIs(name, '/', |name|);
  }

  lemma ScottTooSmall()
    ensures Split("scott", None, 5) == Some(Parts("scott", "", "")) && FillsUid("scott", 5)
  {
    OneTooSmall("scott", None, 5);
    IndexIs("scott", '/', 5);
  }

  /** The outcome on three buffers, accepted or not: accepted as `Split` says, the parts in place, and index
      `bufsize` written exactly when the part is reached and fills its buffer. */
  twostate predicate SplitsInto(s: string, sid: Option<string>, uid: array<char>, pwd: array<char>,
                                tnsname: array<char>, bufsize: nat, ok: bool)
    reads uid, pwd, tnsname
  {
    var r := Split(s, sid, bufsize);
    && (ok <==> r.Some?)
    && (ok ==> Text(uid[..]) == r.value.uid && Text(pwd[..]) == r.value.pwd && Text(tnsname[..]) == r.value.tnsname)
    && Ends(old(uid[..]), uid[..], bufsize, FillsUid(s, bufsize))
    && Ends(old(pwd[..]), pwd[..], bufsize, FillsPwd(s, bufsize))
    && Ends(old(tnsname[..]), tnsname[..], bufsize, FillsName(s, bufsize))
  }

  lemma EmptyText(a: seq<char>)
    requires a != [] && a[0] == NUL
    ensures Text(a) == ""
  {
    HoldsText(a, "");
  }

  /** The split and the parts reached, by where the separators are. */
  lemma SplitCases(s: string, sid: Option<string>, bufsize: nat)
    ensures var i := IndexOf(s, '/');
      && (bufsize == 0 || i > bufsize ==>
           Split(s, sid, bufsize).None? && !FillsPwd(s, bufsize) && !FillsName(s, bufsize))
      && (FillsUid(s, bufsize) <==> 0 < bufsize && i == bufsize)
      && (i == |s| && 0 < bufsize && i <= bufsize ==>
           && Split(s, sid, bufsize) == Some(Parts(s, "", Default(sid, bufsize)))
           && !FillsPwd(s, bufsize) && !FillsName(s, bufsize))
      && (i < |s| && 0 < bufsize && i <= bufsize ==>
            var rest := s[i + 1..];
            var j := IndexOf(rest, '@');
            && (FillsPwd(s, bufsize) <==> j == bufsize)
            && (FillsName(s, bufsize) <==> j <= bufsize && j < |rest| && |rest| - j - 1 == bufsize)
            && Split(s, sid, bufsize) ==
              if j <= bufsize && (j == |rest| || |rest| - j - 1 <= bufsize)
              then Some(Parts(s[..i], rest[..j], if j == |rest| then Default(sid, bufsize) else rest[j + 1..]))
              else None)
  {
    hide IndexOf, Default;
  }

  method SplitBuffers(s: string, uid: array<char>, pwd: array<char>, tnsname: array<char>, bufsize: nat,
                      sid: Option<string>) returns (ok: bool)
    requires NUL !in s && (sid.Some? ==> NUL !in sid.value) && Buffers(s, uid, pwd, tnsname, bufsize)
    modifies uid, pwd, tnsname
    ensures SplitsInto(s, sid, uid, pwd, tnsname, bufsize, ok)
  {
    hide IndexOf, Text, Default, Split, Holds, Ends, FillsUid, FillsPwd, FillsName;
    SplitCases(s, sid, bufsize);
    ghost var u, p, t := uid[..], pwd[..], tnsname[..];
    if bufsize == 0 {
      NothingFills(s);
      Unwritten(u, bufsize);
      Unwritten(p, bufsize);
      Unwritten(t, bufsize);
      return false;
    }
    uid[0] := NUL;
    pwd[0] := NUL;
    tnsname[0] := NUL;
    Started(u, uid[..], bufsize);
    Started(p, pwd[..], bufsize);
    Started(t, tnsname[..], bufsize);
    ghost var u1 := uid[..];
    var at: nat;
    assert s[0..] == s;
    ok, at := CopyPart(s, 0, '/', uid, bufsize);
    WrittenAfter(u, u1, uid[..], bufsize, FillsUid(s, bufsize));
    if ok {
      assert s[0..at] == s[..at];
      ok := SplitTail(s, at, pwd, tnsname, bufsize, sid, p, t);
    }
  }

  /** What follows the user name. `p` and `t` are the buffers before their first characters were cleared. */
  method SplitTail(s: string, at: nat, pwd: array<char>, tnsname: array<char>, bufsize: nat, sid: Option<string>,
                   ghost p: seq<char>, ghost t: seq<char>) returns (ok: bool)
    requires at == IndexOf(s, '/') <= bufsize && 0 < bufsize && NUL !in s && (sid.Some? ==> NUL !in sid.value)
    requires Room(pwd.Length, bufsize, FillsPwd(s, bufsize)) && Room(tnsname.Length, bufsize, FillsName(s, bufsize))
    requires pwd != tnsname && pwd[0] == NUL && tnsname[0] == NUL
    requires Ends(p, pwd[..], bufsize, false) && Ends(t, tnsname[..], bufsize, false)
    modifies pwd, tnsname
    ensures var r := Split(s, sid, bufsize);
      && (ok <==> r.Some?)
      && (ok ==> r.value.uid == s[..at] && Text(pwd[..]) == r.value.pwd && Text(tnsname[..]) == r.value.tnsname)
    ensures Ends(p, pwd[..], bufsize, FillsPwd(s, bufsize)) && Ends(t, tnsname[..], bufsize, FillsName(s, bufsize))
  {
    hide IndexOf, Text, Default, Split, Holds, Ends, FillsUid, FillsPwd, FillsName;
    SplitCases(s, sid, bufsize);
    ghost var p1, t1 := pwd[..], tnsname[..];
    if at == |s| {
      assert s[..at] == s;
      EmptyText(pwd[..]);
      CopySid(sid, tnsname, bufsize);
      ok := true;
    } else {
      ok := SplitRest(s, at + 1, pwd, tnsname, bufsize, sid);
      WrittenAfter(p, p1, pwd[..], bufsize, FillsPwd(s, bufsize));
    }
    WrittenAfter(t, t1, tnsname[..], bufsize, FillsName(s, bufsize));
  }

  lemma NothingFills(s: string)
    ensures !FillsUid(s, 0) && !FillsPwd(s, 0) && !FillsName(s, 0)
  {
  }

  lemma Unwritten(a: seq<char>, bufsize: nat)
    ensures Ends(a, a, bufsize, false)
  {
  }

  lemma Started(was: seq<char>, now: seq<char>, bufsize: nat)
    requires 0 < bufsize && |was| == |now| > 0 && now == was[0 := now[0]]
    ensures Ends(was, now, bufsize, false)
  {
  }

  lemma WrittenAfter(was: seq<char>, now: seq<char>, after: seq<char>, bufsize: nat, fills: bool)
    requires Ends(was, now, bufsize, false) && Ends(now, after, bufsize, fills)
    ensures Ends(was, after, bufsize, fills)
  {
  }

  /** ... from the password on. */
  method SplitRest(s: string, from: nat, pwd: array<char>, tnsname: array<char>, bufsize: nat, sid: Option<string>)
    returns (ok: bool)
    requires from <= |s| && NUL !in s && (sid.Some? ==> NUL !in sid.value)
    requires 0 < bufsize && pwd != tnsname && tnsname.Length > 0 && tnsname[0] == NUL
    requires var rest := s[from..];
      var j := IndexOf(rest, '@');
      && Room(pwd.Length, bufsize, j == bufsize)
      && Room(tnsname.Length, bufsize, j <= bufsize && j < |rest| && |rest| - j - 1 == bufsize)
    modifies pwd, tnsname
    ensures var rest := s[from..];
      var j := IndexOf(rest, '@');
      && (ok <==> j <= bufsize && (j == |rest| || |rest| - j - 1 <= bufsize))
      && (ok ==> Text(pwd[..]) == rest[..j])
      && (ok ==> Text(tnsname[..]) == if j == |rest| then Default(sid, bufsize) else rest[j + 1..])
      && Ends(old(pwd[..]), pwd[..], bufsize, j == bufsize)
      && Ends(old(tnsname[..]), tnsname[..], bufsize, j <= bufsize && j < |rest| && |rest| - j - 1 == bufsize)
  {
    ghost var rest := s[from..];
    var at: nat;
    ok, at := CopyPart(s, from, '@', pwd, bufsize);
    if !ok {
      return;
    }
    assert s[from..at] == rest[..at - from];
    if at == |s| {
      CopySid(sid, tnsname, bufsize);
      return;
    }
    NulIsLast(s[at + 1..]);
    assert s[at + 1..] == rest[at - from + 1..];
    ok, at := CopyPart(s, at + 1, NUL, tnsname, bufsize);
  }

  lemma NulIsLast(s: string)
    requires NUL !in s
    ensures IndexOf(s, NUL) == |s|
  {
    IndexIs(s, NUL, |s|);
  }

  /** The strncpy of ORACLE_SID, when it is set: padded with NUL, then terminated. */
  method CopySid(sid: Option<string>, dst: array<char>, bufsize: nat)
    requires 0 < bufsize <= dst.Length && dst[0] == NUL && (sid.Some? ==> NUL !in sid.value)
    modifies dst
    ensures Text(dst[..]) == Default(sid, bufsize) && Ends(old(dst[..]), dst[..], bufsize, false)
  {
    if sid.None? {
      assert Holds(dst[..], "");
      HoldsText(dst[..], "");
      return;
    }
    var i := 0;
    while i < bufsize - 1
      invariant i <= bufsize - 1 && SameFrom(old(dst[..]), dst[..], bufsize)
      invariant forall j :: 0 <= j < i ==> dst[j] == if j < |sid.value| then sid.value[j] else NUL
    {
      dst[i] := if i < |sid.value| then sid.value[i] else NUL;
      i := i + 1;
    }
    dst[bufsize - 1] := NUL;
    ghost var d := Default(sid, bufsize);
    assert dst[..][..|d|] == d;
    assert Holds(dst[..], d);
    HoldsText(dst[..], d);
  }
}
