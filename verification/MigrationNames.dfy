/**
 * The names of migration files letter by letter, and the number in one read as
 * numbers are written: the first digit counts most.
 */
module MigrationNames {
  import opened Options
  import opened Migration

  predicate Letter(c: char) {
    var n := c as int;
    65 <= n <= 90 || 97 <= n <= 122 || 48 <= n <= 57 || n == 95
  }

  // One to 64 letters, digits and underscores.
  ghost predicate Title(name: string) {
    1 <= |name| <= 64 && forall i :: 0 <= i < |name| ==> Letter(name[i])
  }

  lemma TitleIs(name: string)
    ensures Title(name) <==> GoodName(name)
  {
    assert forall i :: 0 <= i < |name| ==> (Letter(name[i]) <==> NameChar(name[i]));
  }

  // A digit in front counts as many times as there are numbers of the digits
  // behind it.
  lemma {:induction false} FirstCountsMost(c: char, ds: string)
    requires Digit(c) && forall i :: 0 <= i < |ds| ==> Digit(ds[i])
    ensures NumberOf([c] + ds) == (c as int - 48) * Tens(|ds|) + NumberOf(ds) && NumberOf(ds) < Tens(|ds|)
    decreases |ds|
  {
    var s := [c] + ds;
    if ds == "" {
      assert s[..0] == "";
    } else {
      var n := |ds| - 1;
      assert s[..|s| - 1] == [c] + ds[..n];
      FirstCountsMost(c, ds[..n]);
      Ten(c as int - 48, Tens(n));
    }
  }

  lemma Ten(a: int, b: int)
    ensures a * b * 10 == a * (10 * b)
  {
  }

  // v, a number from 1 to 999999999 without zeros in front, an underscore, a
  // name, and .up.sql or .down.sql: that is a migration's file, and nothing
  // else is.
  lemma FileIff(s: string, h: Head)
    ensures Parse(s) == Some(h) <==>
              && 1 <= h.version <= 999_999_999 && Title(h.name)
              && s == "v" + (Decimal(h.version) + ("_" + (h.name + (if h.up then ".up.sql" else ".down.sql"))))
  {
    TitleIs(h.name);
    NameIff(s, h);
  }
}
