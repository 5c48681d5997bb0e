/**
 * A trademark design code such as "03.07.02": category, division and section,
 * each written with two digits. The classifier's `Set<string>` holds the
 * rendered strings; the model keeps the three numbers and proves that rendering
 * is injective, so deduplicating codes and deduplicating their strings agree.
 */
module DesignCodes {

  datatype DesignCode = DesignCode(category: nat, division: nat, section: nat) {

    /** Every part fits in two decimal digits, as in all codes the classifier emits. */
    predicate WellFormed() {
      category < 100 && division < 100 && section < 100
    }

    /** The code as the source writes it: "cc.dd.ss". */
    function Render(): (s: string)
      requires WellFormed()
      ensures |s| == 8 && s[2] == '.' && s[5] == '.'
      ensures forall i :: 0 <= i < 8 && i != 2 && i != 5 ==> '0' <= s[i] <= '9'
      ensures (s[0] as int - '0' as int) * 10 + (s[1] as int - '0' as int) == category
      ensures (s[3] as int - '0' as int) * 10 + (s[4] as int - '0' as int) == division
      ensures (s[6] as int - '0' as int) * 10 + (s[7] as int - '0' as int) == section
    {
      TwoDigits(category) + "." + TwoDigits(division) + "." + TwoDigits(section)
    }
  }

  /** `n` in two decimal digits, with a leading zero when `n < 10`. */
  function TwoDigits(n: nat): (s: string)
    requires n < 100
    ensures |s| == 2 && '0' <= s[0] <= '9' && '0' <= s[1] <= '9'
    ensures (s[0] as int - '0' as int) * 10 + (s[1] as int - '0' as int) == n
  {
    [('0' as int + n / 10) as char, ('0' as int + n % 10) as char]
  }

  /** Two well-formed codes with the same rendering are the same code. */
  lemma RenderInjective(a: DesignCode, b: DesignCode)
    requires a.WellFormed() && b.WellFormed()
    requires a.Render() == b.Render()
    ensures a == b
  {
    var s, t := a.Render(), b.Render();
    var a1, a2, a3 := TwoDigits(a.category), TwoDigits(a.division), TwoDigits(a.section);
    var b1, b2, b3 := TwoDigits(b.category), TwoDigits(b.division), TwoDigits(b.section);
    assert s == a1 + "." + a2 + "." + a3 && t == b1 + "." + b2 + "." + b3;
    assert s[0] == a1[0] && s[1] == a1[1] && s[3] == a2[0] && s[4] == a2[1] && s[6] == a3[0] && s[7] == a3[1];
    assert t[0] == b1[0] && t[1] == b1[1] && t[3] == b2[0] && t[4] == b2[1] && t[6] == b3[0] && t[7] == b3[1];
  }
}
