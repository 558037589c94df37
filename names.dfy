/**
 * What `createId`, `createTitle` and the numeric sort key guarantee about
 * file and directory names.
 */
module NameProperties {
  import opened Text
  import opened Transcript

  /* ---------- Extensions ---------- */

  /** `/\.[^/.]+$/` removes a trailing ".txt" and nothing more. */
  lemma StripTxt(base: string)
    ensures StripExtension(base + ".txt") == base
  {
    var name := base + ".txt";
    assert name[|base|] == '.';
    assert name[|base| + 1..] == "txt";
    var d := LastIndexOf(name, '.');
    assert d == |base|;
    assert name[..|base|] == base;
  }

  /** A name without a dot keeps every character. */
  lemma StripNoDot(name: string)
    requires '.' !in name
    ensures StripExtension(name) == name
  {
  }

  /** A dot followed by a '/' later on is not an extension. */
  lemma StripDotBeforeSlash(x: string, y: string, z: string)
    requires '.' !in y && '.' !in z
    ensures StripExtension(x + "." + y + "/" + z) == x + "." + y + "/" + z
  {
    var name := x + "." + y + "/" + z;
    var d := LastIndexOf(name, '.');
    assert name[|x|] == '.' && name[|x| + 1 + |y|] == '/';
    assert forall j | |x| < j < |name| :: name[j] != '.' by {
      forall j | |x| < j < |name| ensures name[j] != '.' {
        if j < |x| + 1 + |y| { assert name[j] == y[j - |x| - 1]; }
        else if j > |x| + 1 + |y| { assert name[j] == z[j - |x| - 2 - |y|]; }
      }
    }
    assert d == |x|;
  }

  /* ---------- Whitespace runs ---------- */

  /** A string without whitespace is its own collapsed form. */
  lemma {:induction false} CollapseIdentity(s: string)
    requires NoSpace(s)
    ensures CollapseWhitespace(s) == s
  {
    if s != [] {
      assert !IsSpace(s[0]);
      CollapseIdentity(s[1..]);
    }
  }

  /** Collapsing twice is collapsing once. */
  lemma CollapseIdempotent(s: string)
    ensures CollapseWhitespace(CollapseWhitespace(s)) == CollapseWhitespace(s)
  {
    CollapseIdentity(CollapseWhitespace(s));
  }

  /** A whitespace run stops at the first non-whitespace character. */
  lemma LeadingSpacesOf(w: string, y: string)
    requires AllSpace(w) && (y == [] || !IsSpace(y[0]))
    ensures LeadingSpaces(w + y) == |w|
  {
    var s := w + y;
    var n := LeadingSpaces(s);
    assert forall j | 0 <= j < |w| :: s[j] == w[j];
    assert y != [] ==> s[|w|] == y[0];
  }

  /** A leading whitespace run becomes one '-'. */
  lemma CollapseRun(w: string, y: string)
    requires AllSpace(w) && w != [] && NoSpace(y)
    ensures CollapseWhitespace(w + y) == "-" + y
  {
    var s := w + y;
    assert s[0] == w[0];
    LeadingSpacesOf(w, y);
    assert s[|w|..] == y;
    CollapseIdentity(y);
  }

  /** Two words separated by a run of whitespace are joined by one '-'. */
  lemma {:induction false} CollapseWords(x: string, w: string, y: string)
    requires NoSpace(x) && AllSpace(w) && w != [] && NoSpace(y)
    ensures CollapseWhitespace(x + w + y) == x + "-" + y
    decreases |x|
  {
    if x == [] {
      assert x + w + y == w + y;
      CollapseRun(w, y);
    } else {
      var s := x + w + y;
      assert s[0] == x[0] && s[1..] == x[1..] + w + y;
      CollapseWords(x[1..], w, y);
    }
  }

  /** An id contains no whitespace, so turning it into an id again changes nothing but case and extension. */
  lemma CreateIdNoSpace(name: string)
    ensures NoSpace(CreateId(name))
    ensures CollapseWhitespace(CreateId(name)) == CreateId(name)
  {
    CollapseIdempotent(StripExtension(ToLower(name)));
  }

  /** Every '-' of a title's base name became a space, and every other character is kept. */
  lemma CreateTitleTxt(base: string)
    ensures CreateTitle(base + ".txt") == ReplaceChar(base, '-', ' ')
    ensures '-' !in CreateTitle(base + ".txt")
    ensures |CreateTitle(base + ".txt")| == |base|
  {
    StripTxt(base);
  }

  /* ---------- Concrete names ---------- */

  lemma ExampleLower()
    ensures ToLower("Unit 1") == "unit 1"
  {
    var r := ToLower("Unit 1");
    assert r[0] == 'u' && r[1] == 'n' && r[2] == 'i' && r[3] == 't' && r[4] == ' ' && r[5] == '1';
  }

  lemma ExampleUnitParts()
    ensures "Unit 1.txt" == "Unit 1" + ".txt"
    ensures ToLower("Unit 1" + ".txt") == ToLower("Unit 1") + ".txt"
    ensures "unit 1" == "unit" + " " + "1"
    ensures NoSpace("unit") && AllSpace(" ") && NoSpace("1")
  {
    var r := ToLower("Unit 1" + ".txt");
    assert r[6] == '.' && r[7] == 't' && r[8] == 'x' && r[9] == 't';
  }

  /** `createId("Unit 1.txt")` is "unit-1". */
  lemma ExampleCreateId()
    ensures CreateId("Unit 1.txt") == "unit-1"
  {
    ExampleUnitParts();
    ExampleLower();
    StripTxt("unit 1");
    CollapseWords("unit", " ", "1");
  }

  /** `createId("manifest.txt")` is "manifest", the name of the manifest file. */
  lemma ExampleManifestId()
    ensures CreateId("manifest.txt") == "manifest"
  {
    assert "manifest.txt" == "manifest" + ".txt";
    var r := ToLower("manifest.txt");
    assert r[0] == 'm' && r[1] == 'a' && r[2] == 'n' && r[3] == 'i' && r[4] == 'f' && r[5] == 'e';
    assert r[6] == 's' && r[7] == 't' && r[8] == '.' && r[9] == 't' && r[10] == 'x' && r[11] == 't';
    assert r == "manifest.txt";
    StripTxt("manifest");
    CollapseIdentity("manifest");
  }

  /** `createTitle("unit-1.txt")` is "unit 1". */
  lemma ExampleCreateTitle()
    ensures CreateTitle("unit-1.txt") == "unit 1"
  {
    assert "unit-1.txt" == "unit-1" + ".txt";
    CreateTitleTxt("unit-1");
    var r := ReplaceChar("unit-1", '-', ' ');
    assert r[4] == ' ';
  }

  /* ---------- Numeric key ---------- */

  /** A name without digits has key 0 (`parseInt("0")`). */
  lemma NumKeyNoDigits(name: string)
    requires forall j | 0 <= j < |name| :: !IsDigit(name[j])
    ensures NumKey(name) == 0
  {
    assert FirstDigit(name) == |name|;
  }

  /** The key is the value of the first maximal digit run, wherever it is. */
  lemma NumKeyOf(x: string, d: string, y: string)
    requires forall j | 0 <= j < |x| :: !IsDigit(x[j])
    requires AllDigits(d) && (y == [] || !IsDigit(y[0]))
    ensures NumKey(x + d + y) == DecimalValue(d)
  {
    var name := x + d + y;
    assert name[|x|] == d[0];
    var i := FirstDigit(name);
    assert forall j | 0 <= j < |x| :: name[j] == x[j];
    var t := name[i..];
    assert t == d + y;
    var n := DigitRun(t);
    assert forall j | 0 <= j < |d| :: t[j] == d[j];
    assert y != [] ==> t[|d|] == y[0];
    assert name[i..i + n] == d;
  }

  /** `"Lesson 12 - a3.txt"` sorts under 12: later digits are ignored. */
  lemma ExampleNumKey()
    ensures NumKey("Lesson 12 - a3.txt") == 12
  {
    assert "Lesson 12 - a3.txt" == "Lesson " + "12" + " - a3.txt";
    var x := "Lesson ";
    assert forall j | 0 <= j < |x| :: !IsDigit(x[j]);
    NumKeyOf("Lesson ", "12", " - a3.txt");
    assert "12"[..1] == "1";
  }
}
