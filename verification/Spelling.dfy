/** How names may be written: what normalizing, searching and trimming do, character by character. */
module Spelling {
  import opened Text
  import opened Fields

  // ----- names

  predicate IsLetterOrDigit(c: char) { 'a' <= c <= 'z' || 'A' <= c <= 'Z' || '0' <= c <= '9' }

  /** The character is written for this lower-case letter or digit. */
  predicate Writes(c: char, d: char) {
    ('0' <= d <= '9' && c == d) || ('a' <= d <= 'z' && (c == d || c as int + 32 == d as int))
  }

  /** The text is the name, with letters in either case, and anything but letters and digits in between. */
  predicate Spells(text: string, name: string) {
    if text == "" then name == ""
    else if !IsLetterOrDigit(text[0]) then Spells(text[1..], name)
    else name != "" && Writes(text[0], name[0]) && Spells(text[1..], name[1..])
  }

  lemma FrontIs(c: char, rest: string, name: string)
    ensures [c] + rest == name <==> name != "" && name[0] == c && rest == name[1..]
  {
    if name != "" {
      assert name == [name[0]] + name[1..];
    }
    assert ([c] + rest)[1..] == rest;
  }

  lemma NothingInFront(rest: string)
    ensures [] + rest == rest
  {
  }

  lemma LowerWrites(c: char, d: char)
    requires IsLetterOrDigit(c)
    ensures IsAlnum(c) && (ToLower(c) == d <==> Writes(c, d))
  {
  }

  /** A key has the normalized form that it spells, and no other. */
  lemma {:induction false} SpellsIff(text: string, name: string)
    ensures Spells(text, name) <==> NormalizeFieldName(text) == name
  {
    if text != "" {
      var rest := NormalizeFieldName(text[1..]);
      if IsLetterOrDigit(text[0]) {
        if name != "" {
          LowerWrites(text[0], name[0]);
          SpellsIff(text[1..], name[1..]);
        }
        FrontIs(ToLower(text[0]), rest, name);
      } else {
        SpellsIff(text[1..], name);
        NothingInFront(rest);
      }
    }
  }

  // ----- parts of names

  /** The part stands somewhere in the text. */
  ghost predicate StandsIn(part: string, s: string) { exists before, after :: s == before + part + after }

  lemma StandsAt(before: string, part: string, after: string)
    ensures StandsIn(part, before + part + after)
  {
  }

  lemma {:induction false} ContainsIff(s: string, part: string)
    ensures Contains(s, part) <==> StandsIn(part, s)
  {
    if StandsIn(part, s) {
      var before, after :| s == before + part + after;
      ContainsMiddle(before, part, after);
    }
    if part <= s {
      StandsAt("", part, s[|part|..]);
      assert s == "" + part + s[|part|..];
    } else if Contains(s, part) {
      ContainsIff(s[1..], part);
      var before, after :| s[1..] == before + part + after;
      StandsAt([s[0]] + before, part, after);
      assert s == [s[0]] + before + part + after;
    }
  }

  // ----- white space around

  /** What `trim` takes for white space. */
  predicate IsSpace(c: char) { c == ' ' || 9 <= c as int <= 13 }

  predicate AllSpace(s: string) { forall c | c in s :: IsSpace(c) }

  /** The text has no white space at its ends. */
  predicate IsTight(s: string) { s != "" ==> !IsSpace(s[0]) && !IsSpace(s[|s| - 1]) }

  lemma {:induction false} TrimsStart(before: string, s: string)
    requires AllSpace(before) && (s == "" || !IsSpace(s[0]))
    ensures TrimStart(before + s) == s
  {
    if before != "" {
      assert before[0] in before;
      TrimsStart(before[1..], s);
      assert (before + s)[1..] == before[1..] + s;
    } else {
      NothingInFront(s);
    }
  }

  lemma {:induction false} TrimsEnd(s: string, after: string)
    requires AllSpace(after) && (s == "" || !IsSpace(s[|s| - 1]))
    ensures TrimEnd(s + after) == s
  {
    if after != "" {
      var n := |after| - 1;
      assert after[n] in after;
      TrimsEnd(s, after[..n]);
      assert (s + after)[..|s| + n] == s + after[..n];
    } else {
      assert s + after == s;
    }
  }

  /** Trimming takes away the white space around a text, and nothing else. */
  lemma TrimIs(before: string, s: string, after: string)
    requires AllSpace(before) && IsTight(s) && AllSpace(after)
    ensures Trim(before + s + after) == s
  {
    if s == "" {
      assert before + s + after == (before + after) + "";
      TrimsStart(before + after, "");
    } else {
      assert before + s + after == before + (s + after);
      TrimsStart(before, s + after);
      TrimsEnd(s, after);
    }
  }

  /** A text is blank exactly when it is white space alone. */
  lemma {:induction false} BlankIff(s: string)
    ensures IsBlank(s) <==> AllSpace(s)
  {
    if AllSpace(s) {
      TrimIs(s, "", "");
      assert s + "" + "" == s;
    } else {
      var i :| 0 <= i < |s| && !IsSpace(s[i]);
      KeepsOther(s, i);
    }
  }

  lemma {:induction false} KeepsOther(s: string, i: nat)
    requires i < |s| && !IsSpace(s[i])
    ensures !IsBlank(s)
  {
    if IsSpace(s[0]) {
      KeepsOther(s[1..], i - 1);
    } else {
      KeepsFirst(s);
    }
  }

  lemma {:induction false} KeepsFirst(s: string)
    requires s != "" && !IsSpace(s[0])
    ensures TrimStart(s) == s && TrimEnd(s) != ""
  {
    if IsSpace(s[|s| - 1]) {
      KeepsFirst(s[..|s| - 1]);
    }
  }
}
