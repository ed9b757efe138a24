/** The keys inside a chain database and the paths of the databases themselves. */
module Names {
  import opened Basics

  const DB_HEADER_KEY: string := "__HEADER"
  const DB_BLOCK_KEY: string := "__BLOCK/"

  /** `std::to_string` of an unsigned number. */
  function Decimal(n: nat): string {
    if n < 10 then [Digit(n)] else Decimal(n / 10) + [Digit(n % 10)]
  }

  function Digit(d: nat): char
    requires d < 10
  {
    (d + '0' as int) as char
  }

  /** `Chain::makeBlockName`. */
  function BlockName(index: nat): string {
    DB_BLOCK_KEY + Decimal(index)
  }

  /** `operator/` on paths, for a relative right-hand side that is not empty. */
  function JoinPath(dir: string, name: string): string {
    if dir == "" || dir[|dir| - 1] == '/' then dir + name else dir + "/" + name
  }

  /** `Manager::makeStoragePath`. */
  function StoragePath(dir: string, chainId: uint64): string {
    JoinPath(dir, Decimal(chainId as nat) + ".blockchain")
  }

  function DecimalValue(s: string): int {
    if s == "" then 0 else 10 * DecimalValue(s[..|s| - 1]) + (s[|s| - 1] as int - '0' as int)
  }

  lemma {:induction false} DecimalRoundTrip(n: nat)
    ensures DecimalValue(Decimal(n)) == n
  {
    if n >= 10 {
      DecimalRoundTrip(n / 10);
      assert Decimal(n)[..|Decimal(n)| - 1] == Decimal(n / 10);
    }
  }

  lemma BlockNamesDistinct(i: nat, j: nat)
    requires BlockName(i) == BlockName(j)
    ensures i == j
  {
    assert BlockName(i)[|DB_BLOCK_KEY|..] == Decimal(i);
    assert BlockName(j)[|DB_BLOCK_KEY|..] == Decimal(j);
    DecimalRoundTrip(i);
    DecimalRoundTrip(j);
  }

  lemma BlockNameIsNotHeader(i: nat)
    ensures BlockName(i) != DB_HEADER_KEY
  {
    assert BlockName(i)[2] == 'B' && DB_HEADER_KEY[2] == 'H';
  }

  lemma NumberInPath(dir: string, i: uint64)
    ensures |JoinPath(dir, "")| <= |StoragePath(dir, i)| - 11
    ensures StoragePath(dir, i)[|JoinPath(dir, "")|..|StoragePath(dir, i)| - 11] == Decimal(i as nat)
  {
    hide Decimal;
    var number := Decimal(i as nat);
    assert StoragePath(dir, i) == JoinPath(dir, "") + number + ".blockchain";
  }

  lemma StoragePathsDistinct(dir: string, i: uint64, j: uint64)
    requires StoragePath(dir, i) == StoragePath(dir, j)
    ensures i == j
  {
    hide StoragePath, JoinPath, Decimal;
    NumberInPath(dir, i);
    NumberInPath(dir, j);
    DecimalRoundTrip(i as nat);
    DecimalRoundTrip(j as nat);
  }

  /** The text of a number: its decimal digits, the highest first, with no zero in front. */
  lemma DecimalText(n: nat, d: nat)
    requires d < 10
    ensures Decimal(d) == [('0' as int + d) as char]
    ensures n > 0 ==> Decimal(10 * n + d) == Decimal(n) + [('0' as int + d) as char]
  {
    assert (10 * n + d) / 10 == n && (10 * n + d) % 10 == d;
  }

  /** The text of a path: one slash between the directory and the name, and none after an empty directory. */
  lemma StoragePathText(dir: string, chainId: uint64)
    ensures dir == "" ==> StoragePath(dir, chainId) == Decimal(chainId as nat) + ".blockchain"
    ensures forall d: string :: dir == d + "/" ==>
              StoragePath(dir, chainId) == d + "/" + Decimal(chainId as nat) + ".blockchain"
    ensures dir != "" && dir[|dir| - 1] != '/' ==>
              StoragePath(dir, chainId) == dir + "/" + Decimal(chainId as nat) + ".blockchain"
  {
    hide Decimal;
  }

  lemma NameExamples()
    ensures BlockName(120) == "__BLOCK/120" && DB_HEADER_KEY == "__HEADER"
    ensures StoragePath("/var/db", 42) == "/var/db/42.blockchain"
  {
    assert Decimal(12) == "12" && Decimal(120) == "120";
    assert Decimal(4) == "4" && Decimal(42) == "42";
    var name := "42" + ".blockchain";
    assert StoragePath("/var/db", 42) == "/var/db" + "/" + name;
  }
}
