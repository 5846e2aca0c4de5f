/**
 Rendering of the flashcard deck (app1.py, flashcard branch): each side of a
 card has its apostrophes replaced by the HTML entity "&#39;" before it is
 placed in the page, and the page is sized to hold three cards per row.
 */
module Cards {
  import opened PyText

  /** One card as the JSON decoder yields it: `{"front": ..., "back": ...}`. */
  datatype Flashcard = Flashcard(front: string, back: string)

  const Apostrophe: string := "'"
  const Entity: string := "&#39;"

  /** `text.replace("'", "&#39;")` */
  function EscapeApostrophes(s: string): (r: string)
    ensures '\'' !in r
    ensures |r| == |s| + 4 * Count(s, '\'')
  {
    EscapeShape(s);
    ReplaceAll(s, Apostrophe, Entity)
  }

  /** Both sides of a card as they are placed in the page. */
  function EscapeCard(c: Flashcard): (r: Flashcard)
    ensures '\'' !in r.front && '\'' !in r.back
    ensures |r.front| == |c.front| + 4 * Count(c.front, '\'')
    ensures |r.back| == |c.back| + 4 * Count(c.back, '\'')
  {
    Flashcard(EscapeApostrophes(c.front), EscapeApostrophes(c.back))
  }

  /** The inverse rewrite: every "&#39;" back to an apostrophe. */
  function UnescapeApostrophes(s: string): string {
    ReplaceAll(s, Entity, Apostrophe)
  }

  /** Escaping removes every apostrophe and adds four characters for each. */
  lemma {:induction false} EscapeShape(s: string)
    ensures '\'' !in ReplaceAll(s, Apostrophe, Entity)
    ensures |ReplaceAll(s, Apostrophe, Entity)| == |s| + 4 * Count(s, '\'')
    decreases |s|
  {
    if |s| > 0 {
      EscapeShape(s[1..]);
      if s[0] == '\'' {
        assert Apostrophe <= s;
      } else {
        assert !(Apostrophe <= s);
      }
    }
  }

  /** How the escape treats the first character of a non-empty text. */
  lemma EscapeHead(t: string)
    requires |t| > 0
    ensures EscapeApostrophes(t)
      == (if t[0] == '\'' then Entity else [t[0]]) + EscapeApostrophes(t[1..])
  {
  }

  /** A prefix of the escaped text that holds no '&' was already in the input. */
  lemma {:induction false} EscapedPrefixWithoutAmpersand(t: string, p: string)
    requires '&' !in p
    requires p <= EscapeApostrophes(t)
    ensures p <= t
    decreases |p|
  {
    if |p| > 0 {
      var e := EscapeApostrophes(t);
      assert |t| > 0;
      EscapeHead(t);
      assert p[0] == e[0] && p[0] != '&';
      assert t[0] != '\'';
      assert p[1..] <= EscapeApostrophes(t[1..]);
      EscapedPrefixWithoutAmpersand(t[1..], p[1..]);
    }
  }

  /**
   Undoing the escape recovers the card text, provided the text did not
   already hold the entity itself.
   */
  lemma {:induction false} UnescapeEscape(s: string)
    requires !Contains(s, Entity)
    ensures UnescapeApostrophes(EscapeApostrophes(s)) == s
    decreases |s|
  {
    if |s| > 0 {
      var e := EscapeApostrophes(s);
      var tail := EscapeApostrophes(s[1..]);
      UnescapeEscape(s[1..]);
      if s[0] == '\'' {
        assert Apostrophe <= s;
        assert e == Entity + tail;
        assert Entity <= e;
        assert e[|Entity|..] == tail;
      } else {
        assert !(Apostrophe <= s);
        assert e == [s[0]] + tail;
        assert !(Entity <= e) by {
          if Entity <= e {
            assert "#39;" <= tail by {
              assert e[1..] == tail;
            }
            EscapedPrefixWithoutAmpersand(s[1..], "#39;");
            assert false;
          }
        }
        assert e[1..] == tail;
        assert s == [s[0]] + s[1..];
      }
    }
  }

  /** Unescaping never lengthens a text, and shortens every text holding the entity. */
  lemma {:induction false} UnescapeShrinks(t: string)
    ensures |UnescapeApostrophes(t)| <= |t|
    ensures Contains(t, Entity) ==> |UnescapeApostrophes(t)| < |t|
    decreases |t|
  {
    if |t| > 0 {
      if Entity <= t {
        UnescapeShrinks(t[|Entity|..]);
      } else {
        UnescapeShrinks(t[1..]);
      }
    }
  }

  /** Unescaping a text that starts with the entity yields an apostrophe for it. */
  lemma UnescapeAtEntity(x: string)
    ensures UnescapeApostrophes(Entity + x) == Apostrophe + UnescapeApostrophes(x)
  {
    assert Entity <= Entity + x && (Entity + x)[|Entity|..] == x;
  }

  /** Escaping a text that starts with the entity keeps the entity as it is. */
  lemma EscapeAtEntity(x: string)
    ensures EscapeApostrophes(Entity + x) == Entity + EscapeApostrophes(x)
  {
    ReplaceSkipsPlain(Entity, x, Apostrophe, Entity);
  }

  /**
   Escaping and then unescaping a text is the same as unescaping it: the
   entities the escape writes are turned back, and those already in the text
   are turned into apostrophes too.
   */
  lemma {:induction false} UnescapeEscapeIsUnescape(s: string)
    ensures UnescapeApostrophes(EscapeApostrophes(s)) == UnescapeApostrophes(s)
    decreases |s|
  {
    if |s| > 0 {
      if Entity <= s {
        var rest := s[|Entity|..];
        assert s == Entity + rest;
        EscapeAtEntity(rest);
        UnescapeAtEntity(EscapeApostrophes(rest));
        UnescapeEscapeIsUnescape(rest);
      } else {
        var e := EscapeApostrophes(s);
        var tail := EscapeApostrophes(s[1..]);
        EscapeHead(s);
        UnescapeEscapeIsUnescape(s[1..]);
        if s[0] == '\'' {
          assert e == Entity + tail;
          UnescapeAtEntity(tail);
        } else {
          assert e == [s[0]] + tail;
          assert !(Entity <= e) by {
            if Entity <= e {
              assert "#39;" <= tail by {
                assert e[1..] == tail;
              }
              EscapedPrefixWithoutAmpersand(s[1..], "#39;");
              assert false;
            }
          }
          assert e[1..] == tail;
        }
      }
    }
  }

  /**
   The precondition of `UnescapeEscape` cannot be dropped: no text holding
   the entity survives the round trip.
   */
  lemma EntityTextNotRecovered(s: string)
    requires Contains(s, Entity)
    ensures UnescapeApostrophes(EscapeApostrophes(s)) != s
  {
    UnescapeEscapeIsUnescape(s);
    UnescapeShrinks(s);
  }

  /** `math.ceil(n / 3)`: rows needed for `n` cards, three to a row. */
  function Rows(n: nat): (rows: nat)
    ensures 3 * rows >= n
    ensures 3 * rows < n + 3
  {
    (n + 2) / 3
  }

  /** `rows * 250 + 50`: iframe height for a deck of `n` cards. */
  function GridHeight(n: nat): (h: int)
    ensures h >= 50 && (h - 50) % 250 == 0
    ensures 3 * ((h - 50) / 250) >= n
    ensures 3 * ((h - 50) / 250) < n + 3
  {
    Rows(n) * 250 + 50
  }

  /** A larger deck never gets a shorter frame. */
  lemma GridHeightMonotone(n: nat, m: nat)
    requires n <= m
    ensures GridHeight(n) <= GridHeight(m)
  {
  }
}
