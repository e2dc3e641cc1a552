/**
 The in-place path cleaner against a stack of path components.  A path is a NUL-terminated string;
 what comes after the first NUL is ignored.
*/
module CleanPath {

  const NUL: char := 0 as char

  // ----- The simple normaliser -----

  // The text before the first NUL.
  function CString(s: string): (t: string)
    ensures t <= s && NUL !in t && (|t| < |s| ==> s[|t|] == NUL)
  {
    if s == [] || s[0] == NUL then []
    else
      var t := CString(s[1..]);
      assert [s[0]] + t <= s;
      [s[0]] + t
  }

  // Where the part that starts at i ends.
  function PartEnd(t: string, i: nat): (e: nat)
    requires i <= |t|
    ensures i <= e <= |t|
    ensures forall j | i <= j < e :: t[j] != '/'
    ensures e < |t| ==> t[e] == '/'
    decreases |t| - i
  {
    if i == |t| || t[i] == '/' then i else PartEnd(t, i + 1)
  }

  // The parts from i on, without the empty ones.
  function Parts(t: string, i: nat): seq<string>
    requires i <= |t|
    decreases |t| - i
  {
    if i == |t| then []
    else if t[i] == '/' then Parts(t, i + 1)
    else [t[i..PartEnd(t, i)]] + Parts(t, PartEnd(t, i))
  }

  // One part on top of the stack: "." is dropped, ".." takes back the part before it, or stays where
  // a relative path has nothing to take back.
  function Push(absolute: bool, stack: seq<string>, part: string): seq<string> {
    if part == "." then stack
    else if part == ".." then
      if stack != [] && stack[|stack| - 1] != ".." then stack[..|stack| - 1]
      else if absolute then stack
      else stack + [".."]
    else stack + [part]
  }

  function PushAll(absolute: bool, stack: seq<string>, parts: seq<string>): seq<string>
    decreases |parts|
  {
    if parts == [] then stack else PushAll(absolute, Push(absolute, stack, parts[0]), parts[1..])
  }

  function Join(stack: seq<string>): string {
    if stack == [] then [] else if |stack| == 1 then stack[0]
    else stack[0] + "/" + Join(stack[1..])
  }

  predicate IsAbsolute(t: string) {
    t != [] && t[0] == '/'
  }

  function Stack(t: string): seq<string> {
    PushAll(IsAbsolute(t), [], Parts(t, 0))
  }

  function Render(absolute: bool, stack: seq<string>): string {
    if absolute then "/" + Join(stack) else if stack == [] then "." else Join(stack)
  }

  function Clean(t: string): string {
    Render(IsAbsolute(t), Stack(t))
  }

  // ----- Clean stacks -----

  predicate IsPart(part: string) {
    part != [] && part != "." && '/' !in part && NUL !in part
  }

  // Parts of names, and ".." only at the bottom of a relative path.
  ghost predicate CleanStack(absolute: bool, stack: seq<string>) {
    && (forall i | 0 <= i < |stack| :: IsPart(stack[i]))
    && (forall i | 0 <= i < |stack| && stack[i] == ".." :: !absolute && (i > 0 ==> stack[i - 1] == ".."))
  }

  lemma PushKeepsClean(absolute: bool, stack: seq<string>, part: string)
    requires CleanStack(absolute, stack) && part != [] && '/' !in part && NUL !in part
    ensures CleanStack(absolute, Push(absolute, stack, part))
  {
  }

  lemma {:induction false} PushAllKeepsClean(absolute: bool, stack: seq<string>, parts: seq<string>)
    requires CleanStack(absolute, stack)
    requires forall i | 0 <= i < |parts| :: parts[i] != [] && '/' !in parts[i] && NUL !in parts[i]
    ensures CleanStack(absolute, PushAll(absolute, stack, parts))
    decreases |parts|
  {
    hide CleanStack, Push;
    if parts != [] {
      PushKeepsClean(absolute, stack, parts[0]);
      PushAllKeepsClean(absolute, Push(absolute, stack, parts[0]), parts[1..]);
    }
  }

  lemma {:induction false} PartsAreParts(t: string, i: nat)
    requires i <= |t| && NUL !in t
    ensures forall k | 0 <= k < |Parts(t, i)| ::
      Parts(t, i)[k] != [] && '/' !in Parts(t, i)[k] && NUL !in Parts(t, i)[k]
    decreases |t| - i
  {
    if i < |t| {
      if t[i] == '/' {
        PartsAreParts(t, i + 1);
      } else {
        PartsAreParts(t, PartEnd(t, i));
      }
    }
  }

  lemma StackIsClean(t: string)
    requires NUL !in t
    ensures CleanStack(IsAbsolute(t), Stack(t))
  {
    PartsAreParts(t, 0);
    PushAllKeepsClean(IsAbsolute(t), [], Parts(t, 0));
  }

  // ----- Cleaning twice -----

  // A clean stack is rebuilt part by part.
  lemma {:induction false} PushAllOfClean(absolute: bool, stack: seq<string>, n: nat)
    requires CleanStack(absolute, stack) && n <= |stack|
    ensures PushAll(absolute, stack[..n], stack[n..]) == stack
    decreases |stack| - n
  {
    if n < |stack| {
      assert Push(absolute, stack[..n], stack[n]) == stack[..n + 1];
      assert stack[n..][1..] == stack[n + 1..];
      PushAllOfClean(absolute, stack, n + 1);
    } else {
      assert stack[n..] == [];
    }
  }

  lemma PartEndIs(t: string, i: nat, e: nat)
    requires i <= e <= |t| && (forall j | i <= j < e :: t[j] != '/') && (e < |t| ==> t[e] == '/')
    ensures PartEnd(t, i) == e
    decreases e - i
  {
    if i < e { PartEndIs(t, i + 1, e); }
  }

  // Text that begins with a part: where the part ends, and what comes after it.
  lemma PartThen(t: string, i: nat, part: string, tail: string)
    requires i <= |t| && t[i..] == part + tail && '/' !in part && (tail == [] || tail[0] == '/')
    ensures PartEnd(t, i) == i + |part| <= |t| && t[i..i + |part|] == part && t[i + |part|..] == tail
  {
    var e := i + |part|;
    forall j | 0 <= j < |t| - i ensures t[i + j] == (part + tail)[j] { assert t[i..][j] == t[i + j]; }
    forall j | i <= j < e ensures t[j] != '/' { assert t[i + (j - i)] == part[j - i]; }
    assert e < |t| ==> t[i + |part|] == tail[0];
    PartEndIs(t, i, e);
  }

  lemma SlashThen(t: string, e: nat, rest: string)
    requires e <= |t| && t[e..] == "/" + rest
    ensures e < |t| && t[e] == '/' && t[e + 1..] == rest
  {
    assert t[e] == t[e..][0] && t[e + 1..] == t[e..][1..];
  }

  lemma StartOf(t: string, i: nat, part: string, tail: string)
    requires i <= |t| && t[i..] == part + tail && IsPart(part)
    ensures i < |t| && t[i] != '/' && '/' !in part
  {
    assert t[i] == t[i..][0] == part[0];
  }

  // The parts of a joined stack, after some text before it.
  lemma {:induction false} PartsOfJoin(t: string, i: nat, stack: seq<string>)
    requires i <= |t| && t[i..] == Join(stack) && forall k | 0 <= k < |stack| :: IsPart(stack[k])
    ensures Parts(t, i) == stack
    decreases |stack|
  {
    hide Parts, PartEnd, Join, IsPart;
    JoinIs(stack);
    NoParts(t);
    if stack == [] {
      assert i == |t|;
    } else {
      var part, e := stack[0], i + |stack[0]|;
      var tail := if |stack| == 1 then "" else "/" + Join(stack[1..]);
      StartOf(t, i, part, tail);
      PartThen(t, i, part, tail);
      FirstOfParts(t, i, part);
      if |stack| > 1 {
        SlashThen(t, e, Join(stack[1..]));
        PartsOfJoin(t, e + 1, stack[1..]);
      } else {
        assert e == |t|;
      }
      assert stack == [part] + stack[1..];
    }
  }

  lemma JoinIs(stack: seq<string>)
    ensures Join(stack) == if stack == [] then "" else stack[0] + (if |stack| == 1 then "" else "/" + Join(stack[1..]))
  {
  }

  lemma NoParts(t: string)
    ensures Parts(t, |t|) == []
  {
  }

  lemma FirstOfParts(t: string, i: nat, part: string)
    requires i < |t| && t[i] != '/' && PartEnd(t, i) == i + |part| && t[i..i + |part|] == part
    ensures Parts(t, i) == [part] + Parts(t, i + |part|)
    ensures i + |part| < |t| ==> Parts(t, i + |part|) == Parts(t, i + |part| + 1)
  {
  }

  lemma JoinStart(stack: seq<string>)
    requires stack != [] && IsPart(stack[0])
    ensures Join(stack) != [] && Join(stack)[0] == stack[0][0] && Join(stack)[0] != '/'
  {
  }

  lemma CleanOfClean(t: string)
    requires NUL !in t
    ensures Clean(Clean(t)) == Clean(t)
  {
    hide Join, PushAll, Parts;
    var absolute, stack := IsAbsolute(t), Stack(t);
    StackIsClean(t);
    assert stack[..0] == [] && stack[0..] == stack;
    PushAllOfClean(absolute, stack, 0);
    CleanParts(t);
    JustDot();
  }

  lemma SlashFirst(s: string)
    requires IsAbsolute(s)
    ensures Parts(s, 0) == Parts(s, 1)
  {
  }

  lemma JustDot()
    ensures PushAll(false, [], ["."]) == []
  {
    assert ["."][1..] == [];
  }

  lemma {:induction false} JoinHasNoNul(stack: seq<string>)
    requires forall i | 0 <= i < |stack| :: IsPart(stack[i])
    ensures NUL !in Join(stack)
    decreases |stack|
  {
    if |stack| > 1 { JoinHasNoNul(stack[1..]); }
  }

  // The routine is idempotent: what it returns is a text of its own, which it leaves alone.
  lemma CleanTwice(s: string)
    ensures NUL !in Clean(CString(s))
    ensures Clean(CString(Clean(CString(s)))) == Clean(CString(s))
  {
    hide Join, Stack, CleanStack;
    var t := CString(s);
    var r := Clean(t);
    StackIsClean(t);
    CleanIsParts(IsAbsolute(t), Stack(t));
    JoinHasNoNul(Stack(t));
    assert CString(r) == r;
    CleanOfClean(t);
  }

  // ----- What a path means -----

  // Going along the parts from a directory, which is named by the way to it from the root: "." stays,
  // ".." goes up, and stays at the root.
  function Walk(dir: seq<string>, parts: seq<string>): seq<string>
    decreases |parts|
  {
    if parts == [] then dir
    else if parts[0] == "." then Walk(dir, parts[1..])
    else if parts[0] == ".." then Walk(if dir == [] then [] else dir[..|dir| - 1], parts[1..])
    else Walk(dir + [parts[0]], parts[1..])
  }

  // Where a path leads from the directory dir.
  function Leads(dir: seq<string>, t: string): seq<string> {
    Walk(if t != [] && t[0] == '/' then [] else dir, Parts(t, 0))
  }

  lemma {:induction false} WalkAppend(dir: seq<string>, parts: seq<string>, part: string)
    ensures Walk(dir, parts + [part]) == Walk(Walk(dir, parts), [part])
    decreases |parts|
  {
    hide Walk;
    if parts == [] {
      assert parts + [part] == [part];
      WalkNone(dir);
    } else {
      assert (parts + [part])[1..] == parts[1..] + [part];
      var next := Walk(dir, [parts[0]]);
      WalkFirst(dir, parts + [part]);
      WalkFirst(dir, parts);
      WalkAppend(next, parts[1..], part);
    }
  }

  lemma WalkNone(dir: seq<string>)
    ensures Walk(dir, []) == dir
  {
  }

  lemma WalkFirst(dir: seq<string>, parts: seq<string>)
    requires parts != []
    ensures Walk(dir, parts) == Walk(Walk(dir, [parts[0]]), parts[1..])
  {
    var one := [parts[0]];
    assert one[1..] == [];
  }

  lemma WalkName(dir: seq<string>, part: string)
    requires part != "." && part != ".."
    ensures Walk(dir, [part]) == dir + [part]
    ensures Walk(dir + [part], [".."]) == dir
    ensures Walk(dir, ["."]) == dir && Walk([], [".."]) == []
  {
    assert [part][1..] == [];
    assert (dir + [part])[..|dir|] == dir;
  }

  // Pushing a part leads where going along it leads.
  lemma PushLeads(dir: seq<string>, absolute: bool, stack: seq<string>, part: string)
    requires CleanStack(absolute, stack) && (absolute ==> dir == [])
    ensures Walk(dir, Push(absolute, stack, part)) == Walk(Walk(dir, stack), [part])
  {
    hide Walk;
    WalkAppend(dir, stack, part);
    if part == "." {
      WalkName(Walk(dir, stack), "a");
    } else if part == ".." && stack != [] && stack[|stack| - 1] != ".." {
      var init, top := stack[..|stack| - 1], stack[|stack| - 1];
      assert stack == init + [top];
      WalkAppend(dir, init, top);
      WalkName(Walk(dir, init), top);
    } else if part == ".." && absolute {
      WalkNone(dir);
      WalkName(dir, "a");
    }
  }

  lemma {:induction false} PushAllLeads(dir: seq<string>, absolute: bool, stack: seq<string>, parts: seq<string>)
    requires CleanStack(absolute, stack) && (absolute ==> dir == [])
    requires forall i | 0 <= i < |parts| :: parts[i] != [] && '/' !in parts[i] && NUL !in parts[i]
    ensures Walk(dir, PushAll(absolute, stack, parts)) == Walk(Walk(dir, stack), parts)
    decreases |parts|
  {
    hide Walk, CleanStack, Push;
    if parts == [] {
      WalkNone(Walk(dir, stack));
    } else {
      PushLeads(dir, absolute, stack, parts[0]);
      PushKeepsClean(absolute, stack, parts[0]);
      PushAllLeads(dir, absolute, Push(absolute, stack, parts[0]), parts[1..]);
      WalkFirst(Walk(dir, stack), parts);
    }
  }

  // The cleaned path leads where the path leads, from every directory, and is absolute just when the
  // path is.
  lemma CleanLeads(dir: seq<string>, t: string)
    requires NUL !in t
    ensures Leads(dir, Clean(t)) == Leads(dir, t)
    ensures (Clean(t) != [] && Clean(t)[0] == '/') <==> (t != [] && t[0] == '/')
  {
    hide Walk, PushAll, Parts, CleanStack;
    var from := if IsAbsolute(t) then [] else dir;
    PartsAreParts(t, 0);
    EmptyIsClean(IsAbsolute(t));
    PushAllLeads(from, IsAbsolute(t), [], Parts(t, 0));
    WalkNone(from);
    CleanParts(t);
    if Stack(t) == [] { WalkName(from, "a"); }
  }

  lemma EmptyIsClean(absolute: bool)
    ensures CleanStack(absolute, [])
  {
  }

  // The parts of the cleaned path are the stack, but for the "." of an empty relative path.
  lemma CleanParts(t: string)
    requires NUL !in t
    ensures Parts(Clean(t), 0) == if !IsAbsolute(t) && Stack(t) == [] then ["."] else Stack(t)
    ensures IsAbsolute(Clean(t)) <==> IsAbsolute(t)
  {
    hide Join, PushAll, Parts;
    var absolute, stack, s := IsAbsolute(t), Stack(t), Clean(t);
    StackIsClean(t);
    if absolute {
      assert s[1..] == Join(stack);
      PartsOfJoin(s, 1, stack);
      SlashFirst(s);
    } else if stack != [] {
      JoinStart(stack);
      assert s[0..] == s;
      PartsOfJoin(s, 0, stack);
    } else {
      PartsOfDot();
    }
  }

  lemma PartsOfDot()
    ensures Parts(".", 0) == ["."]
  {
    PartEndIs(".", 0, 1);
    assert Parts(".", 1) == [];
    assert "."[0..1] == ".";
  }

  // ----- What the parts are -----

  // A slash separates, and a text without slashes is one part, or none.
  lemma {:induction false} PartsOfSlash(a: string, b: string, i: nat)
    requires i <= |a|
    ensures Parts(a + "/" + b, i) == Parts(a, i) + Parts(b, 0)
    decreases |a| - i
  {
    hide Parts, PartEnd;
    if i == |a| {
      PartsAfterSlash(a, b);
      PartsUnfold(a, i);
    } else {
      var e := if a[i] == '/' then i + 1 else PartEnd(a, i);
      PartsUnfold(a, i);
      SamePartEnd(a, b, i);
      OneStep(a, b, i, e);
      PartsOfSlash(a, b, e);
      AppendBehind(if a[i] == '/' then [] else [a[i..e]], Parts(a, e), Parts(b, 0));
    }
  }

  // One step through the parts of a is one step through the parts of the longer text.
  lemma OneStep(a: string, b: string, i: nat, e: nat)
    requires i < e <= |a| && e == if a[i] == '/' then i + 1 else PartEnd(a, i)
    ensures Parts(a, i) == (if a[i] == '/' then [] else [a[i..e]]) + Parts(a, e)
    ensures Parts(a + "/" + b, i) == (if a[i] == '/' then [] else [a[i..e]]) + Parts(a + "/" + b, e)
  {
    hide Parts, PartEnd;
    SamePart(a, b, i, e);
    SamePartEnd(a, b, i);
    PartsUnfold(a, i);
    PartsUnfold(a + "/" + b, i);
  }

  lemma AppendBehind(x: seq<string>, y: seq<string>, z: seq<string>)
    ensures (x + y) + z == x + (y + z)
  {
  }

  lemma SamePart(a: string, b: string, i: nat, e: nat)
    requires i <= e <= |a|
    ensures (a + "/" + b)[i..e] == a[i..e]
    ensures i < |a| ==> (a + "/" + b)[i] == a[i]
  {
  }

  lemma PartsAfterSlash(a: string, b: string)
    ensures Parts(a + "/" + b, |a|) == Parts(b, 0)
  {
    hide Parts, PartEnd;
    PartsUnfold(a + "/" + b, |a|);
    PartsBehind(a + "/", b, 0);
  }

  lemma PartsUnfold(t: string, i: nat)
    requires i <= |t|
    ensures Parts(t, i) ==
      if i == |t| then [] else if t[i] == '/' then Parts(t, i + 1) else [t[i..PartEnd(t, i)]] + Parts(t, PartEnd(t, i))
    ensures i < |t| && t[i] != '/' ==> PartEnd(t, i) > i
  {
  }

  lemma SamePartEnd(a: string, b: string, i: nat)
    requires i <= |a|
    ensures PartEnd(a + "/" + b, i) == PartEnd(a, i)
  {
    var t, e := a + "/" + b, PartEnd(a, i);
    assert e < |a| ==> t[e] == a[e];
    forall j | i <= j < e ensures t[j] != '/' { assert t[j] == a[j]; }
    PartEndIs(t, i, e);
  }

  lemma {:induction false} PartsBehind(a: string, b: string, i: nat)
    requires i <= |b|
    ensures Parts(a + b, |a| + i) == Parts(b, i)
    decreases |b| - i
  {
    hide Parts, PartEnd;
    PartsUnfold(a + b, |a| + i);
    PartsUnfold(b, i);
    if i < |b| {
      if b[i] == '/' {
        PartsBehind(a, b, i + 1);
      } else {
        var e := PartEnd(b, i);
        PartEndBehind(a, b, i);
        assert (a + b)[|a| + i..|a| + e] == b[i..e];
        PartsBehind(a, b, e);
      }
    }
  }

  lemma PartEndBehind(a: string, b: string, i: nat)
    requires i <= |b|
    ensures PartEnd(a + b, |a| + i) == |a| + PartEnd(b, i)
  {
    var t, e := a + b, PartEnd(b, i);
    forall j | |a| + i <= j < |a| + e ensures t[j] != '/' { assert t[j] == b[j - |a|]; }
    PartEndIs(t, |a| + i, |a| + e);
  }

  lemma OnePartOrNone(t: string)
    requires '/' !in t
    ensures Parts(t, 0) == if t == [] then [] else [t]
  {
    if t != [] {
      forall j | 0 <= j < |t| ensures t[j] != '/' { assert t[j] in t; }
      PartEndIs(t, 0, |t|);
      assert t[0..|t|] == t;
      assert Parts(t, |t|) == [];
    }
  }

  // ----- The text on the way -----

  function Root(absolute: bool): string {
    if absolute then "/" else ""
  }

  // The parts, each with a slash after it.
  function Flat(stack: seq<string>): string {
    if stack == [] then [] else Flat(stack[..|stack| - 1]) + stack[|stack| - 1] + "/"
  }

  lemma FlatAppend(stack: seq<string>, part: string)
    ensures Flat(stack + [part]) == Flat(stack) + part + "/"
  {
    assert (stack + [part])[..|stack|] == stack;
  }

  lemma {:induction false} FlatIsJoin(stack: seq<string>)
    requires stack != []
    ensures Flat(stack) == Join(stack) + "/"
    decreases |stack|
  {
    var n := |stack| - 1;
    if n > 0 {
      FlatIsJoin(stack[..n]);
      JoinAppend(stack[..n], stack[n]);
      assert stack == stack[..n] + [stack[n]];
    } else {
      assert stack[..0] == [];
    }
  }

  lemma {:induction false} JoinAppend(stack: seq<string>, part: string)
    requires stack != []
    ensures Join(stack + [part]) == Join(stack) + "/" + part
    decreases |stack|
  {
    assert (stack + [part])[1..] == stack[1..] + [part];
    if |stack| > 1 {
      JoinAppend(stack[1..], part);
    }
  }

  // The text at the head of the loop, while there is more to read: the first `ups` parts are "..",
  // and `limit` is where they end.
  ghost predicate Shows(out: string, absolute: bool, stack: seq<string>, ups: nat, limit: nat) {
    && CleanStack(absolute, stack) && ups <= |stack|
    && (forall i | 0 <= i < |stack| :: stack[i] == ".." <==> i < ups)
    && out == Root(absolute) + Flat(stack)
    && limit == |Root(absolute)| + |Flat(stack[..ups])|
  }

  // The text at the end: the last part may have no slash.
  ghost predicate Ends(out: string, absolute: bool, stack: seq<string>) {
    out == Root(absolute) + Flat(stack) || (stack != [] && out + "/" == Root(absolute) + Flat(stack))
  }

  // The last steps of CleanPath: no slash at the end, and "." for nothing.
  function Trim(out: string): string {
    if out == [] then "." else if |out| > 1 && out[|out| - 1] == '/' then out[..|out| - 1] else out
  }

  lemma TrimRenders(out: string, absolute: bool, stack: seq<string>)
    requires Ends(out, absolute, stack) && forall i | 0 <= i < |stack| :: IsPart(stack[i])
    ensures Trim(out) == Render(absolute, stack)
  {
    hide Flat, Join;
    if stack != [] {
      FlatIsJoin(stack);
      JoinStart(stack);
      var whole := Root(absolute) + Join(stack);
      assert Root(absolute) + Flat(stack) == whole + "/";
      JoinEnd(stack);
      assert whole[|whole| - 1] == Join(stack)[|Join(stack)| - 1];
      if out == whole + "/" {
        assert out[..|out| - 1] == whole;
      } else {
        assert out == (out + "/")[..|out|] == (whole + "/")[..|whole|] == whole;
      }
    } else {
      assert Flat(stack) == [] by { FlatOfNone(); }
      assert Join(stack) == [] by { JoinOfNone(); }
    }
  }

  lemma FlatOfNone()
    ensures Flat([]) == []
  {
  }

  lemma JoinOfNone()
    ensures Join([]) == []
  {
  }

  lemma {:induction false} JoinEnd(stack: seq<string>)
    requires stack != [] && forall i | 0 <= i < |stack| :: IsPart(stack[i])
    ensures Join(stack) != [] && Join(stack)[|Join(stack)| - 1] != '/'
    decreases |stack|
  {
    if |stack| > 1 { JoinEnd(stack[1..]); }
  }

  // ----- One part -----

  // What the three kinds of parts do to the text.
  lemma PushName(out: string, absolute: bool, stack: seq<string>, ups: nat, limit: nat, part: string)
    requires Shows(out, absolute, stack, ups, limit) && IsPart(part) && part != ".."
    ensures Shows(out + part + "/", absolute, stack + [part], ups, limit)
    ensures Ends(out + part, absolute, stack + [part])
  {
    hide CleanStack, Flat;
    PushKeepsClean(absolute, stack, part);
    FlatAppend(stack, part);
    assert (stack + [part])[..ups] == stack[..ups];
    assert out + part + "/" == Root(absolute) + (Flat(stack) + part + "/");
  }

  lemma PushUp(out: string, stack: seq<string>, ups: nat, limit: nat)
    requires Shows(out, false, stack, ups, limit) && |out| == limit
    ensures Push(false, stack, "..") == stack + [".."]
    ensures Shows(out + "../", false, stack + [".."], ups + 1, |out| + 3)
    ensures Ends(out + "..", false, stack + [".."])
  {
    hide CleanStack, Flat;
    PushKeepsClean(false, stack, "..");
    AtLimit(out, false, stack, ups, limit);
    FlatAppend(stack, "..");
    var stack' := stack + [".."];
    assert stack'[..ups + 1] == stack';
    assert out + "../" == Root(false) + (Flat(stack) + ".." + "/");
  }

  // The text is at its limit just when there is no part to take back.
  lemma AtLimit(out: string, absolute: bool, stack: seq<string>, ups: nat, limit: nat)
    requires Shows(out, absolute, stack, ups, limit)
    ensures limit <= |out|
    ensures |out| == limit <==> ups == |stack|
    ensures ups == |stack| ==> (stack == [] || stack[|stack| - 1] == "..")
  {
    FlatGrows(stack, ups);
    assert stack[..|stack|] == stack;
  }

  lemma {:induction false} FlatGrows(stack: seq<string>, n: nat)
    requires n <= |stack|
    ensures |Flat(stack[..n])| <= |Flat(stack)|
    ensures n < |stack| ==> |Flat(stack[..n])| < |Flat(stack)|
    decreases |stack|
  {
    if n < |stack| {
      var init := stack[..|stack| - 1];
      assert init[..n] == stack[..n];
      FlatGrows(init, n);
    } else {
      assert stack[..n] == stack;
    }
  }

  // Taking back the last part: where the text ends then, and how the loop finds that place.
  lemma PopPart(out: string, absolute: bool, stack: seq<string>, ups: nat, limit: nat) returns (q: nat)
    requires Shows(out, absolute, stack, ups, limit) && |out| != limit
    ensures limit <= q < |out| - 1
    ensures q > limit ==> out[q - 1] == '/'
    ensures forall j | q <= j < |out| - 1 :: out[j] != '/'
    ensures Push(absolute, stack, "..") == stack[..|stack| - 1]
    ensures Shows(out[..q], absolute, stack[..|stack| - 1], ups, limit)
  {
    hide CleanStack;
    AtLimit(out, absolute, stack, ups, limit);
    var n := |stack| - 1;
    var init, part := stack[..n], stack[n];
    assert IsPart(part) by { LastIsPart(absolute, stack); }
    CleanPrefix(absolute, stack, n);
    var base := Root(absolute) + Flat(init);
    q := |base|;
    assert out == base + part + "/";
    assert out[..q] == base;
    assert init[..ups] == stack[..ups];
    assert Shows(base, absolute, init, ups, limit);
    AtLimit(base, absolute, init, ups, limit);
    assert forall j | 0 <= j < |part| :: out[q + j] == part[j];
    if q > limit {
      assert base[q - 1] == '/';
    }
  }

  lemma LastIsPart(absolute: bool, stack: seq<string>)
    requires CleanStack(absolute, stack) && stack != []
    ensures IsPart(stack[|stack| - 1])
  {
  }

  lemma CleanPrefix(absolute: bool, stack: seq<string>, n: nat)
    requires CleanStack(absolute, stack) && n <= |stack|
    ensures CleanStack(absolute, stack[..n])
  {
  }

  // ----- The cleaner -----

  // *(src): the character at src, or the terminating NUL.
  function Peek(a: array<char>, src: nat): char
    reads a
  {
    if src < a.Length then a[src] else NUL
  }

  // The text from src on is still unread.
  ghost predicate Unread(a: array<char>, path: string, src: nat)
    reads a
  {
    a.Length == |path| && forall i | src <= i < a.Length :: a[i] == path[i]
  }

  lemma UnreadFits(a: array<char>, path: string, src: nat)
    requires Unread(a, path, src)
    ensures a.Length == |path| && |CString(path)| <= |path|
    ensures forall i | src <= i <= a.Length :: Unread(a, path, i)
  {
  }

  lemma PeekIs(a: array<char>, path: string, t: string, src: nat, i: nat)
    requires Unread(a, path, src) && t == CString(path) && src <= i <= |t|
    ensures Peek(a, i) == NUL <==> i == |t|
    ensures i < |t| ==> Peek(a, i) == t[i]
  {
    if i < |t| { assert t[i] in t; }
  }

  method SkipSlashes(a: array<char>, path: string, start: nat) returns (src: nat)
    requires Unread(a, path, start) && start <= |CString(path)|
    ensures start <= src <= |CString(path)|
    ensures Parts(CString(path), src) == Parts(CString(path), start)
    ensures src < |CString(path)| ==> CString(path)[src] != '/'
  {
    hide CString;
    ghost var t := CString(path);
    src := start;
    while Peek(a, src) == '/'
      invariant start <= src <= |t| && Parts(t, src) == Parts(t, start)
      decreases |t| - src
    {
      PeekIs(a, path, t, start, src);
      src := src + 1;
    }
    PeekIs(a, path, t, start, src);
  }

  // *dst++ = *src++
  method CopyChar(a: array<char>, path: string, src: nat, dst: nat)
    requires Unread(a, path, src) && dst <= src < |CString(path)|
    modifies a
    ensures Unread(a, path, src) && Unread(a, path, src + 1)
    ensures a[..dst + 1] == old(a[..dst]) + [CString(path)[src]]
  {
    hide CString;
    a[dst] := a[src];
  }

  // Copies a part and the slash after it; dst does not overtake src.
  method CopyPart(a: array<char>, path: string, src0: nat, dst0: nat) returns (src: nat, dst: nat)
    requires Unread(a, path, src0) && dst0 <= src0 < |CString(path)| && CString(path)[src0] != '/'
    modifies a
    ensures var t := CString(path);
      var e := PartEnd(t, src0);
      && dst <= src && Unread(a, path, src)
      && src == (if e < |t| then e + 1 else e)
      && a[..dst] == old(a[..dst0]) + t[src0..e] + (if e < |t| then "/" else "")
  {
    hide CString, PartEnd, Unread, Peek;
    UnreadFits(a, path, src0);
    ghost var t, out := CString(path), a[..dst0];
    ghost var e := PartEnd(t, src0);
    src, dst := src0, dst0;
    PeekIs(a, path, t, src, src);
    while Peek(a, src) != NUL && Peek(a, src) != '/'
      invariant src0 <= src <= e && dst - dst0 == src - src0 && Unread(a, path, src)
      invariant a[..dst] == out + t[src0..src]
      decreases e - src
    {
      PeekIs(a, path, t, src, src);
      CopyChar(a, path, src, dst);
      src, dst := src + 1, dst + 1;
      assert t[src0..src] == t[src0..src - 1] + [t[src - 1]];
    }
    PeekIs(a, path, t, src, src);
    assert src == e;
    if Peek(a, src) != NUL {
      CopyChar(a, path, src, dst);
      src, dst := src + 1, dst + 1;
    }
  }

  // Takes back the last part: from before its slash down to the slash of the part before it.
  method Backtrack(a: array<char>, dst0: nat, limit: nat, ghost q: nat, ghost out: string) returns (dst: nat)
    requires dst0 <= a.Length && a[..dst0] == out && limit <= q < dst0 - 1
    requires q > limit ==> out[q - 1] == '/'
    requires forall j | q <= j < dst0 - 1 :: out[j] != '/'
    ensures dst == q && a[..dst] == out[..q]
  {
    dst := dst0 - 1;
    while dst != limit && a[dst - 1] != '/'
      invariant q <= dst <= dst0 - 1
      decreases dst
    {
      assert out[dst - 1] == a[dst - 1];
      dst := dst - 1;
    }
  }

  // How the cleaner tells "." and ".." from other parts.
  lemma DotTests(t: string, i: nat)
    requires i < |t| && t[i] != '/'
    ensures var part := t[i..PartEnd(t, i)];
      && (part == "." <==> t[i] == '.' && (i + 1 == |t| || t[i + 1] == '/'))
      && (part == ".." <==> t[i] == '.' && i + 1 < |t| && t[i + 1] == '.' && (i + 2 == |t| || t[i + 2] == '/'))
  {
    var e := PartEnd(t, i);
    var part := t[i..e];
    assert |part| >= 1 && part[0] == t[i];
    if t[i] == '.' && (i + 1 == |t| || t[i + 1] == '/') { PartEndIs(t, i, i + 1); }
    if i + 1 < |t| && t[i + 1] != '/' {
      assert e > i + 1 && part[1] == t[i + 1];
      if i + 2 == |t| || t[i + 2] == '/' { PartEndIs(t, i, i + 2); }
    }
  }

  // The position after a part and its slash.
  function After(t: string, i: nat): (r: nat)
    requires i <= |t|
    ensures r <= |t|
  {
    if PartEnd(t, i) < |t| then PartEnd(t, i) + 1 else PartEnd(t, i)
  }

  lemma NextPart(t: string, i: nat, absolute: bool, stack: seq<string>)
    requires i < |t| && t[i] != '/'
    ensures PushAll(absolute, stack, Parts(t, i)) ==
      PushAll(absolute, Push(absolute, stack, t[i..PartEnd(t, i)]), Parts(t, After(t, i)))
  {
    hide Push;
    var e := PartEnd(t, i);
    assert Parts(t, i) == [t[i..e]] + Parts(t, e);
    assert Parts(t, i)[1..] == Parts(t, e);
    assert Parts(t, e) == Parts(t, After(t, i));
  }

  // The state of the cleaner: text up to dst, unread from src.
  ghost predicate Cleaning(out: string, t: string, src: nat, absolute: bool, stack: seq<string>, ups: nat, limit: nat) {
    && src <= |t| && |out| <= src
    && (if src < |t| then Shows(out, absolute, stack, ups, limit)
        else Ends(out, absolute, stack) && CleanStack(absolute, stack))
  }

  lemma ShowsCleaning(out: string, t: string, src: nat, absolute: bool, stack: seq<string>, ups: nat, limit: nat)
    requires Shows(out, absolute, stack, ups, limit) && |out| <= src <= |t|
    ensures Cleaning(out, t, src, absolute, stack, ups, limit)
  {
  }

  // Copies a ".." that has nothing to take back, and the slash after it.
  method CopyUp(a: array<char>, path: string, src0: nat, dst0: nat, ghost stack: seq<string>, ghost ups: nat)
    returns (src: nat, dst: nat)
    requires Unread(a, path, src0) && dst0 <= src0 < |CString(path)| && CString(path)[src0] != '/'
    requires CString(path)[src0..PartEnd(CString(path), src0)] == ".."
    requires Shows(a[..dst0], false, stack, ups, dst0)
    modifies a
    ensures src == src0 + 2 && dst <= After(CString(path), src0) && Unread(a, path, src)
    ensures Cleaning(a[..dst], CString(path), After(CString(path), src0), false, stack + [".."], ups + 1, dst)
  {
    hide CString, PartEnd, Shows, Cleaning, Unread, Peek, After;
    UnreadFits(a, path, src0);
    ghost var t, out := CString(path), a[..dst0];
    UpStays(t, src0, out, stack, ups);
    CopyChar(a, path, src0, dst0);
    CopyChar(a, path, src0 + 1, dst0 + 1);
    src, dst := src0 + 2, dst0 + 2;
    assert a[..dst] == out + "..";
    PeekIs(a, path, t, src, src);
    if Peek(a, src) != NUL {
      CopyChar(a, path, src, dst);
      dst := dst + 1;
      assert a[..dst] == out + "../";
    }
  }

  lemma UpStays(t: string, i: nat, out: string, stack: seq<string>, ups: nat)
    requires i < |t| && t[i..PartEnd(t, i)] == ".." && |out| <= i && Shows(out, false, stack, ups, |out|)
    ensures i + 2 <= |t| && t[i] == '.' && t[i + 1] == '.'
    ensures if i + 2 == |t|
      then After(t, i) == i + 2 && Cleaning(out + "..", t, i + 2, false, stack + [".."], ups + 1, |out| + 2)
      else After(t, i) == i + 3 && Cleaning(out + "../", t, i + 3, false, stack + [".."], ups + 1, |out| + 3)
  {
    hide Shows, CleanStack, PartEnd;
    assert t[i..PartEnd(t, i)][0] == '.' && t[i..PartEnd(t, i)][1] == '.';
    PushUp(out, stack, ups, |out|);
    PushUpIsClean(out, stack, ups, |out|);
    if i + 2 < |t| {
      ShowsCleaning(out + "../", t, i + 3, false, stack + [".."], ups + 1, |out| + 3);
    }
  }

  lemma PushUpIsClean(out: string, stack: seq<string>, ups: nat, limit: nat)
    requires Shows(out, false, stack, ups, limit) && |out| == limit
    ensures CleanStack(false, stack + [".."])
  {
    PushUp(out, stack, ups, limit);
  }

  // Takes back the last part, if there is one above the limit.
  method TakePart(a: array<char>, dst0: nat, limit: nat, absolute: bool, ghost stack: seq<string>, ghost ups: nat)
    returns (dst: nat)
    requires dst0 <= a.Length && Shows(a[..dst0], absolute, stack, ups, limit) && dst0 != limit
    ensures dst <= dst0 && Shows(a[..dst], absolute, Push(absolute, stack, ".."), ups, limit)
  {
    hide Shows, Push;
    ghost var out := a[..dst0];
    ghost var q := PopPart(out, absolute, stack, ups, limit);
    dst := Backtrack(a, dst0, limit, q, out);
  }

  // What ".." does to the text written so far.
  method TakeBack(a: array<char>, path: string, src: nat, dst0: nat, limit0: nat, absolute: bool,
                  ghost stack: seq<string>, ghost ups: nat)
    returns (dst: nat, limit: nat, ghost stack': seq<string>, ghost ups': nat)
    requires Unread(a, path, src) && dst0 <= src < |CString(path)| && CString(path)[src] != '/'
    requires CString(path)[src..PartEnd(CString(path), src)] == ".."
    requires Shows(a[..dst0], absolute, stack, ups, limit0)
    modifies a
    ensures dst <= After(CString(path), src) && Unread(a, path, src + 2)
    ensures stack' == Push(absolute, stack, "..")
    ensures Cleaning(a[..dst], CString(path), After(CString(path), src), absolute, stack', ups', limit)
  {
    hide CString, PartEnd, Push, Shows, Cleaning, Unread, Peek, After;
    UnreadFits(a, path, src);
    ghost var t, out := CString(path), a[..dst0];
    AfterUp(t, src);
    dst, limit, stack', ups' := dst0, limit0, Push(absolute, stack, ".."), ups;
    if dst != limit {
      dst := TakePart(a, dst, limit, absolute, stack, ups);
      ShowsCleaning(a[..dst], t, After(t, src), absolute, stack', ups, limit);
    } else if !absolute {
      UpIsPushed(out, stack, ups, limit);
      ghost var end;
      end, dst := CopyUp(a, path, src, dst, stack, ups);
      limit, ups' := dst, ups + 1;
    } else {
      UpIsDropped(out, stack, ups, limit);
      ShowsCleaning(a[..dst], t, After(t, src), absolute, stack', ups, limit);
    }
  }

  lemma UpIsPushed(out: string, stack: seq<string>, ups: nat, limit: nat)
    requires Shows(out, false, stack, ups, limit) && |out| == limit
    ensures Push(false, stack, "..") == stack + [".."]
  {
    PushUp(out, stack, ups, limit);
  }

  lemma UpIsDropped(out: string, stack: seq<string>, ups: nat, limit: nat)
    requires Shows(out, true, stack, ups, limit) && |out| == limit
    ensures Push(true, stack, "..") == stack
  {
    AtLimit(out, true, stack, ups, limit);
    NothingToTakeBack(true, stack);
  }

  lemma AfterUp(t: string, i: nat)
    requires i < |t| && t[i..PartEnd(t, i)] == ".."
    ensures i + 2 <= |t| && After(t, i) == if i + 2 < |t| then i + 3 else i + 2
  {
  }

  // The part ".." at src.
  method UpPart(a: array<char>, path: string, src0: nat, dst0: nat, limit0: nat, absolute: bool,
                ghost stack: seq<string>, ghost ups: nat)
    returns (src: nat, dst: nat, limit: nat, ghost stack': seq<string>, ghost ups': nat)
    requires Unread(a, path, src0) && dst0 <= src0 < |CString(path)| && CString(path)[src0] != '/'
    requires CString(path)[src0..PartEnd(CString(path), src0)] == ".."
    requires Shows(a[..dst0], absolute, stack, ups, limit0)
    modifies a
    ensures src == After(CString(path), src0) && dst <= src && Unread(a, path, src)
    ensures stack' == Push(absolute, stack, "..")
    ensures Cleaning(a[..dst], CString(path), src, absolute, stack', ups', limit)
  {
    hide CString, PartEnd, Push, Shows, Cleaning, Unread, Peek, After;
    ghost var t := CString(path);
    AfterUp(t, src0);
    dst, limit, stack', ups' := TakeBack(a, path, src0, dst0, limit0, absolute, stack, ups);
    src := src0 + 2;
    UnreadFits(a, path, src);
    PeekIs(a, path, t, src, src);
    if Peek(a, src) != NUL {
      src := src + 1;
    }
  }

  lemma NothingToTakeBack(absolute: bool, stack: seq<string>)
    requires absolute && (stack == [] || stack[|stack| - 1] == "..")
    ensures Push(absolute, stack, "..") == stack
  {
  }

  // The part at src, whatever it is.
  method OnePart(a: array<char>, path: string, src0: nat, dst0: nat, limit0: nat, absolute: bool,
                 ghost stack: seq<string>, ghost ups: nat)
    returns (src: nat, dst: nat, limit: nat, ghost stack': seq<string>, ghost ups': nat)
    requires Unread(a, path, src0) && dst0 <= src0 < |CString(path)| && CString(path)[src0] != '/'
    requires Cleaning(a[..dst0], CString(path), src0, absolute, stack, ups, limit0)
    modifies a
    ensures var t := CString(path);
      && src == After(t, src0) && dst <= src && Unread(a, path, src)
      && stack' == Push(absolute, stack, t[src0..PartEnd(t, src0)])
      && Cleaning(a[..dst], t, src, absolute, stack', ups', limit)
  {
    hide CString, PartEnd, Push, Shows, Cleaning;
    ghost var t, out := CString(path), a[..dst0];
    ghost var part := t[src0..PartEnd(t, src0)];
    CleaningShows(out, t, src0, absolute, stack, ups, limit0);
    DotTests(t, src0);
    PeekIs(a, path, t, src0, src0);
    PeekIs(a, path, t, src0, src0 + 1);
    src, dst, limit, stack', ups' := src0, dst0, limit0, Push(absolute, stack, part), ups;
    if Peek(a, src) == '.' {
      if Peek(a, src + 1) == '/' || Peek(a, src + 1) == NUL {
        src := src + 1;
        if Peek(a, src) != NUL {
          src := src + 1;
        }
        assert part == ".";
        DotStays(absolute, stack);
        ShowsCleaning(a[..dst], t, src, absolute, stack', ups, limit);
        return;
      } else if Peek(a, src + 1) == '.' {
        PeekIs(a, path, t, src0, src0 + 2);
        if Peek(a, src + 2) == '/' || Peek(a, src + 2) == NUL {
          src, dst, limit, stack', ups' := UpPart(a, path, src, dst, limit, absolute, stack, ups);
          return;
        }
      }
    }
    src, dst := CopyPart(a, path, src, dst);
    NameStays(t, src0, out, absolute, stack, ups, limit);
  }

  lemma DotStays(absolute: bool, stack: seq<string>)
    ensures Push(absolute, stack, ".") == stack
  {
  }

  lemma NameStays(t: string, i: nat, out: string, absolute: bool, stack: seq<string>, ups: nat, limit: nat)
    requires i < |t| && t[i] != '/' && NUL !in t && |out| <= i && Shows(out, absolute, stack, ups, limit)
    requires t[i..PartEnd(t, i)] != "." && t[i..PartEnd(t, i)] != ".."
    ensures var part := t[i..PartEnd(t, i)];
      Cleaning(out + part + (if PartEnd(t, i) < |t| then "/" else ""), t, After(t, i), absolute,
        Push(absolute, stack, part), ups, limit)
  {
    hide Shows, Ends, CleanStack;
    var e := PartEnd(t, i);
    var part := t[i..e];
    PushName(out, absolute, stack, ups, limit, part);
    ShowsIsClean(out, absolute, stack, ups, limit);
    PushKeepsClean(absolute, stack, part);
    if e < |t| {
      ShowsCleaning(out + part + "/", t, After(t, i), absolute, stack + [part], ups, limit);
    } else {
      assert out + part + "" == out + part;
    }
  }

  lemma ShowsIsClean(out: string, absolute: bool, stack: seq<string>, ups: nat, limit: nat)
    requires Shows(out, absolute, stack, ups, limit)
    ensures CleanStack(absolute, stack)
  {
  }

  lemma CleaningShows(out: string, t: string, src: nat, absolute: bool, stack: seq<string>, ups: nat, limit: nat)
    requires Cleaning(out, t, src, absolute, stack, ups, limit) && src < |t|
    ensures Shows(out, absolute, stack, ups, limit)
  {
  }

  // Keeps the slash of an absolute path, and no other slash at the beginning.
  method Begin(a: array<char>, path: string) returns (absolute: bool, src: nat, dst: nat)
    requires Unread(a, path, 0)
    modifies a
    ensures var t := CString(path);
      && absolute == IsAbsolute(t) && dst <= src <= |t| && Unread(a, path, src) && a.Length == |path|
      && Cleaning(a[..dst], t, src, absolute, [], 0, dst)
      && (src < |t| ==> t[src] != '/')
      && PushAll(absolute, [], Parts(t, src)) == Stack(t)
  {
    hide CString, Shows, Cleaning, Parts, PushAll;
    ghost var t := CString(path);
    src, dst := 0, 0;
    PeekIs(a, path, t, 0, 0);
    absolute := Peek(a, src) == '/';
    if absolute {
      a[dst] := a[src];
      src, dst := src + 1, dst + 1;
      src := SkipSlashes(a, path, src);
      SlashFirst(t);
    }
    EmptyShows(absolute);
    assert a[..dst] == Root(absolute);
    ShowsCleaning(a[..dst], t, src, absolute, [], 0, dst);
  }

  // Drops the slash at the end, or writes "." for nothing.
  method Finish(a: array<char>, dst: nat, absolute: bool, ghost t: string, ghost stack: seq<string>, ghost ups: nat,
                ghost limit: nat)
    returns (path: string)
    requires dst <= a.Length && Cleaning(a[..dst], t, |t|, absolute, stack, ups, limit)
    ensures path == Render(absolute, stack)
  {
    CleanIsParts(absolute, stack);
    TrimRenders(a[..dst], absolute, stack);
    var length := dst;
    if length != 0 {
      if length > 1 && a[length - 1] == '/' {
        length := length - 1;
      }
      path := a[..length];
      assert path == Trim(a[..dst]);
    } else {
      path := ".";
    }
  }

  // PosixEnv::CleanPath: the same path as the component stack gives.
  method CleanPath(unclean: string) returns (path: string)
    ensures path == Clean(CString(unclean))
  {
    hide CString, PartEnd, Push, Cleaning, Parts, PushAll;
    ghost var t := CString(unclean);
    var a := new char[|unclean|](i requires 0 <= i < |unclean| => unclean[i]);
    var absolute, src: nat, dst: nat := Begin(a, unclean);
    var limit: nat := dst;
    ghost var stack: seq<string>, ups: nat := [], 0;
    PeekIs(a, unclean, t, src, src);
    while Peek(a, src) != NUL
      invariant Unread(a, unclean, src) && dst <= src <= |t|
      invariant Cleaning(a[..dst], t, src, absolute, stack, ups, limit)
      invariant src < |t| ==> t[src] != '/'
      invariant PushAll(absolute, stack, Parts(t, src)) == Stack(t)
      decreases |t| - src
    {
      PeekIs(a, unclean, t, src, src);
      NextPart(t, src, absolute, stack);
      Further(t, src);
      src, dst, limit, stack, ups := OnePart(a, unclean, src, dst, limit, absolute, stack, ups);
      ghost var before := src;
      src := SkipSlashes(a, unclean, src);
      Later(a[..dst], t, before, src, absolute, stack, ups, limit);
    }
    PeekIs(a, unclean, t, src, src);
    AllPushed(t, absolute, stack);
    path := Finish(a, dst, absolute, t, stack, ups, limit);
  }

  lemma EmptyShows(absolute: bool)
    ensures Shows(Root(absolute), absolute, [], 0, |Root(absolute)|)
  {
  }

  lemma Further(t: string, i: nat)
    requires i < |t| && t[i] != '/'
    ensures After(t, i) > i
  {
  }

  lemma Later(out: string, t: string, i: nat, j: nat, absolute: bool, stack: seq<string>, ups: nat, limit: nat)
    requires Cleaning(out, t, i, absolute, stack, ups, limit) && i <= j <= |t|
    ensures Cleaning(out, t, j, absolute, stack, ups, limit)
  {
  }

  lemma AllPushed(t: string, absolute: bool, stack: seq<string>)
    ensures PushAll(absolute, stack, Parts(t, |t|)) == stack
  {
  }

  lemma CleanIsParts(absolute: bool, stack: seq<string>)
    requires CleanStack(absolute, stack)
    ensures forall i | 0 <= i < |stack| :: IsPart(stack[i])
  {
  }
}
