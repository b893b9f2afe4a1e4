// The per-writer temp file names, and why two writers never share one.
module TempNames {
  // Keeps alphanumerics, hyphen and underscore. Which characters count as
  // alphanumeric is a parameter; the dot is not one of them.
  function Sanitize(name: string, alphanumeric: char -> bool): (safe: string)
    requires !alphanumeric('.')
    ensures |safe| == |name| && '.' !in safe
  {
    seq(|name|, i requires 0 <= i < |name| =>
      if alphanumeric(name[i]) || name[i] == '-' || name[i] == '_' then name[i] else '_')
  }

  // A plain name is kept.
  lemma PlainNameKept(name: string, alphanumeric: char -> bool)
    requires !alphanumeric('.')
    ensures Sanitize(name, alphanumeric) == name <==>
            forall i :: 0 <= i < |name| ==> alphanumeric(name[i]) || name[i] in "-_"
  {
    var safe := Sanitize(name, alphanumeric);
    assert forall i :: 0 <= i < |name| ==> (safe[i] == name[i] <==> alphanumeric(name[i]) || name[i] in "-_");
  }

  const DIGITS := "0123456789"

  function Decimal(n: nat): (s: string)
    ensures s != [] && '.' !in s
    ensures n < 10 <==> |s| == 1
  {
    assert forall i :: 0 <= i < 10 ==> DIGITS[i] != '.';
    if n < 10 then [DIGITS[n]] else Decimal(n / 10) + [DIGITS[n % 10]]
  }

  // <plugin>.<pid>.<nonce>.tmp
  function Suffix(plugin: string, pid: nat, nonce: nat): string {
    plugin + "." + (Decimal(pid) + "." + (Decimal(nonce) + "." + "tmp"))
  }

  function TempName(fileName: string, plugin: string, pid: nat, nonce: nat, alphanumeric: char -> bool): string
    requires !alphanumeric('.')
  {
    fileName + "." + Suffix(Sanitize(plugin, alphanumeric), pid, nonce)
  }

  // The number a string of digits stands for.
  function Value(s: string): int {
    if s == "" then 0 else 10 * Value(s[..|s| - 1]) + (s[|s| - 1] as int - '0' as int)
  }

  lemma DigitValue(d: nat)
    requires d < 10
    ensures DIGITS[d] as int - '0' as int == d
  {
  }

  lemma {:induction false} DecimalValue(n: nat)
    ensures Value(Decimal(n)) == n
  {
    DigitValue(n % 10);
    if n < 10 {
      assert Decimal(n)[..0] == "";
    } else {
      DecimalValue(n / 10);
      assert Decimal(n)[..|Decimal(n)| - 1] == Decimal(n / 10);
    }
  }

  lemma DecimalInjective(m: nat, n: nat)
    requires Decimal(m) == Decimal(n)
    ensures m == n
  {
    DecimalValue(m);
    DecimalValue(n);
  }

  // A string splits at its first dot in one way only.
  lemma SplitAtDot(a: string, x: string, b: string, y: string)
    requires '.' !in a && '.' !in b
    requires a + "." + x == b + "." + y
    ensures a == b && x == y
  {
    var s := a + "." + x;
    assert s[|a|] == '.' && (b + "." + y)[|b|] == '.';
    forall i | 0 <= i < |a| ensures s[i] != '.' { assert s[i] == a[i] && a[i] in a; }
    forall i | 0 <= i < |b| ensures s[i] != '.' { assert s[i] == b[i] && b[i] in b; }
    assert |a| == |b|;
    assert s[..|a|] == a && s[..|b|] == b;
    assert s[|a| + 1..] == x && s[|b| + 1..] == y;
  }

  lemma SuffixInjective(a: string, pid: nat, nonce: nat, b: string, pid': nat, nonce': nat)
    requires '.' !in a && '.' !in b
    requires Suffix(a, pid, nonce) == Suffix(b, pid', nonce')
    ensures a == b && pid == pid' && nonce == nonce'
  {
    var x, y := Decimal(nonce) + "." + "tmp", Decimal(nonce') + "." + "tmp";
    SplitAtDot(a, Decimal(pid) + "." + x, b, Decimal(pid') + "." + y);
    SplitAtDot(Decimal(pid), x, Decimal(pid'), y);
    SplitAtDot(Decimal(nonce), "tmp", Decimal(nonce'), "tmp");
    DecimalInjective(pid, pid');
    DecimalInjective(nonce, nonce');
  }

  // Equal names come from the same process id and nonce: only the sanitized
  // plugin name is arbitrary text, and it has no dot.
  lemma TempNameInjective(fileName: string, p: string, pid: nat, nonce: nat, q: string, pid': nat, nonce': nat,
                          alphanumeric: char -> bool)
    requires !alphanumeric('.')
    requires TempName(fileName, p, pid, nonce, alphanumeric) == TempName(fileName, q, pid', nonce', alphanumeric)
    ensures pid == pid' && nonce == nonce' && Sanitize(p, alphanumeric) == Sanitize(q, alphanumeric)
  {
    var a, b := Sanitize(p, alphanumeric), Sanitize(q, alphanumeric);
    var name := TempName(fileName, p, pid, nonce, alphanumeric);
    assert name[|fileName| + 1..] == Suffix(a, pid, nonce);
    assert name[|fileName| + 1..] == Suffix(b, pid', nonce');
    SuffixInjective(a, pid, nonce, b, pid', nonce');
  }

  // A temp name is never the marker's own name.
  lemma TempNameIsNotFinal(fileName: string, plugin: string, pid: nat, nonce: nat, alphanumeric: char -> bool)
    requires !alphanumeric('.')
    ensures TempName(fileName, plugin, pid, nonce, alphanumeric) != fileName
  {
    assert |TempName(fileName, plugin, pid, nonce, alphanumeric)| > |fileName|;
  }
}
