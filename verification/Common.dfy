/** Vocabulary shared by the other modules: optional values and a few facts about strings and sequences. */
module Common {

  datatype Option<+T> = None | Some(value: T) {
    function GetOr(default: T): T {
      match this
      case None => default
      case Some(v) => v
    }
  }

  /** Python truthiness of an optional string: present and not empty. */
  predicate Truthy(o: Option<string>) {
    o.Some? && o.value != ""
  }

  predicate HasPrefix(s: string, prefix: string) {
    |prefix| <= |s| && s[..|prefix|] == prefix
  }

  predicate OccursAt(whole: string, part: string, i: nat) {
    i + |part| <= |whole| && whole[i..i + |part|] == part
  }

  /** `part` occurs in `whole` as a contiguous block. */
  predicate Contains(whole: string, part: string) {
    exists i: nat | i <= |whole| :: OccursAt(whole, part, i)
  }

  predicate Blank(c: char) {
    c in " \t\r\n"
  }

  /** White space at both ends removed. */
  function Trim(s: string): string {
    if s == "" then ""
    else if Blank(s[0]) then Trim(s[1..])
    else if Blank(s[|s| - 1]) then Trim(s[..|s| - 1])
    else s
  }

  /** A block occurs in a text exactly when the text is something, the block, and something else. */
  lemma ContainsExactly(whole: string, part: string)
    ensures Contains(whole, part) <==> exists u, v :: whole == u + part + v
  {
    if i: nat :| i <= |whole| && OccursAt(whole, part, i) {
      assert whole == whole[..i] + part + whole[i + |part|..];
    }
    if u, v :| whole == u + part + v {
      assert OccursAt(whole, part, |u|);
    }
  }

  ghost predicate AllBlank(s: string) {
    forall k | 0 <= k < |s| :: Blank(s[k])
  }

  /** Trimming cuts white space off both ends, all of it and nothing else. */
  lemma {:induction false} TrimExactly(s: string) returns (u: string, v: string)
    ensures s == u + Trim(s) + v && AllBlank(u) && AllBlank(v)
    ensures var r := Trim(s); r != "" ==> !Blank(r[0]) && !Blank(r[|r| - 1])
    decreases |s|
  {
    if s == "" {
      u, v := "", "";
    } else if Blank(s[0]) {
      u, v := TrimExactly(s[1..]);
      u := LongerFront(s, u, Trim(s), v);
    } else if Blank(s[|s| - 1]) {
      u, v := TrimExactly(s[..|s| - 1]);
      v := LongerBack(s, u, Trim(s), v);
    } else {
      u, v := "", "";
    }
  }

  lemma LongerFront(s: string, u: string, r: string, v: string) returns (u': string)
    requires s != "" && s[1..] == u + r + v && Blank(s[0]) && AllBlank(u)
    ensures s == u' + r + v && AllBlank(u')
  {
    u' := [s[0]] + u;
  }

  lemma LongerBack(s: string, u: string, r: string, v: string) returns (v': string)
    requires s != "" && s[..|s| - 1] == u + r + v && Blank(s[|s| - 1]) && AllBlank(v)
    ensures s == u + r + v' && AllBlank(v')
  {
    v' := v + [s[|s| - 1]];
  }

  /** The positions of the flags that are set, in order. */
  ghost function Positions(flags: seq<bool>): (at: seq<nat>)
    ensures forall i | 0 <= i < |at| :: at[i] < |flags|
  {
    if flags == [] then []
    else
      var n := |flags| - 1;
      Positions(flags[..n]) + if flags[n] then [n] else []
  }

  lemma {:induction false} PositionsExactly(flags: seq<bool>)
    ensures var at := Positions(flags);
            && (forall i, j | 0 <= i < j < |at| :: at[i] < at[j])
            && (forall k: nat :: k in at <==> k < |flags| && flags[k])
  {
    if flags != [] {
      PositionsExactly(flags[..|flags| - 1]);
    }
  }

  lemma PositionsSnoc(flags: seq<bool>, b: bool)
    ensures Positions(flags + [b]) == Positions(flags) + if b then [|flags|] else []
  {
    assert (flags + [b])[..|flags|] == flags;
  }

  /** ASCII letters and digits. */
  predicate Alnum(c: char) {
    'a' <= c <= 'z' || 'A' <= c <= 'Z' || '0' <= c <= '9'
  }

  /** By their codes: the digits, the capital letters and the small ones. */
  lemma AlnumExactly(c: char)
    ensures Alnum(c) <==> 48 <= c as int < 58 || 65 <= c as int < 91 || 97 <= c as int < 123
  {
  }

  /** The white-listed namespace prefix. */
  const STD := "std::"
}
