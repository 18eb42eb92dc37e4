# Investment Depletion Calculator — a verified model of its projection engine

The calculator splits a lump-sum capital 50:50. One half goes to a fixed
deposit (FD) and the other to a Nifty 50 index fund. It then projects two
things:

- **FD duration.** How many months the FD half survives a fixed monthly
  withdrawal while it earns monthly interest. The count is capped at 100
  years. The calculator shows it as "Indefinite" or as "N Months" with a
  years/months breakdown.
- **Nifty net value.** What the Nifty half is worth after the same time,
  net of a flat tax on positive gains.

Amounts are shown in English words on the Indian scale: Crore (10^7), Lakh
(10^5), Thousand, then the hundreds.

The model is written in Dafny, one module per component of `script.js`:

| module | file | models |
|---|---|---|
| `Text` | `text.dfy` | The JavaScript string operations the calculator uses: `trim` (on spaces), `Array.prototype.join`, and how a template literal prints a whole number. Also splitting at one character, which script.js never calls; the model uses it only to read rendered text back into words. |
| `NumberWords` | `number_words.dfy` | `getNumberToWords` and its inner `convertLessThanOneThousand`, as pure functions. It also holds a reference spelling as a list of words, and an evaluator that reads a list of words back as a number. |
| `Depletion` | `depletion.dfy` | The FD depletion loop, as a method with loop invariants. It is proved against specification functions (`BalanceAfter`, `Survival`). |
| `Duration` | `duration.dfy` | The FD duration read-out ("Indefinite", or "N Months" and the "~ Y Years, M Months" line). |
| `Allocation` | `allocation.dfy` | The 50:50 split, and the gains, tax and net-value arithmetic. |
| `Calculator` | `calculator.dfy` | `calculate` without the page: one pass that ties the components together. |

Balances and rates are exact reals. The word renderer works on the floored
whole amount (`nat`).

### Behaviour of the code worth knowing

- **Flat monthly rate.** The same monthly rate, `(fdRate/100)/12`, applies in every month (script.js:152).
- **Zero principal.** A principal ≤ 0 never enters the loop (script.js:155), so the FD lasts 0 months. The breakdown line is then the bare "~ " (`Duration.ReadoutZero`).
- **Compound tens.** Compound tens are written as two words separated by a space, e.g. "Twenty Three" (script.js:40).
- **Example amount.** 1234567 is 12,34,567 on the Indian scale. It reads "Twelve Lakh Thirty Four Thousand Five Hundred and Sixty Seven" (`NumberWords.SpellingExampleLakhs`).
- **Gains.** Gains are `gross - principal` and may be negative. Only positive gains are taxed (script.js:188-189).
- **Amounts of 10^10 or more.** The crore count then has four or more digits. `ones[Math.floor(n / 100)]` reads past the table and yields `undefined` (script.js:33). The model keeps this (`NumberWords.OnesAt`): 10^10 renders as "undefined Hundred Crore", which reads back as 0 (`NumberWords.TenBillionWords`). The round-trip theorem is therefore stated for amounts below 10^10.

## Model

| member | source | states |
|---|---|---|
| `Text.Trim` | script.js:47 | The trimmed text is the stretch of the input left after removing its leading and trailing spaces: only spaces precede and follow it in the input, and it neither starts nor ends with a space. |
| `Text.DecimalRoundTrip` | script.js:171 | A month count printed by a template literal is all digits, has no leading zero, and reads back as the same count. |
| `NumberWords.Decompose` | script.js:50-72 | The Crore, Lakh, Thousand and remainder counts rebuild the amount (crore·10^7 + lakh·10^5 + thousand·10^3 + rest). Lakh and thousand are below 100 and the rest is below 1000. Below 10^10 the crore count is below 1000. |
| `NumberWords.ConvertSpellsGroup` | script.js:27-48 | `convertLessThanOneThousand(k)` is exactly the reference words of `k` joined by single spaces. |
| `NumberWords.ConvertCases` | script.js:27-48 | 0 gives "". 1-9 give the ones word and 10-19 the teens word. 20-99 give the tens word, then " " and the ones word only when the last digit is not 0. From 100 on: "<digit> Hundred", then " and " and the spelling of `k % 100` when that is not 0. |
| `NumberWords.ConvertMarkers` | script.js:32-36 | Among the words of `convertLessThanOneThousand(k)`, "Hundred" appears exactly when k ≥ 100. "and" appears exactly when k ≥ 100 and k % 100 > 0. |
| `NumberWords.SpellWholeJoinsWords` | script.js:50-79 | For a positive whole amount, the trimmed `result` is the reference word list joined by single spaces: the non-zero Crore, Lakh and Thousand groups, each followed by its scale word, then the remainder (the order and the dropped zero groups are fixed by `NumberWords.WordList`). |
| `NumberWords.NumberToWordsSpelling` | script.js:20-80 | 0 gives "Zero". Any other amount whose floor is not positive gives "". A positive floor gives a non-empty text with no space at either end, and its space-separated words are exactly the reference spelling of the floor. |
| `NumberWords.NumberToWordsScales` | script.js:53-72 | "Crore", "Lakh" and "Thousand" appear among the rendered words exactly when the matching group count is non-zero. |
| `NumberWords.EvaluateWordList` | script.js:50-77 | The reference spelling of any amount below 10^10 evaluates back to that amount. |
| `NumberWords.ParseNumberToWords` | script.js:20-80 | Round trip: reading back what `getNumberToWords(x)` renders gives the floor of `x`, for every 0 ≤ x with floor below 10^10. |
| `NumberWords.SpellingExamples` | script.js:20-80 | 150 is "One Hundred and Fifty" and 100000 is "One Lakh". |
| `NumberWords.SpellingExampleLakhs` | script.js:20-80 | 1234567 is "Twelve Lakh Thirty Four Thousand Five Hundred and Sixty Seven". |
| `NumberWords.TenBillionWords` | script.js:33 | 10^10 renders as the words "undefined Hundred Crore", which evaluate to 0. |
| `Depletion.StopFrom` | script.js:155-159 | The stopping month searched from month `k` is at most the cap, all earlier balances are positive, and below the cap the balance there is not positive. |
| `Depletion.Survival` | script.js:150-159 | The month count is at most 1200, every earlier balance was positive, and below 1200 the final balance is ≤ 0. |
| `Depletion.SurvivalUnique` | script.js:155-159 | Those three facts determine the month count uniquely. |
| `Depletion.Deplete` | script.js:150-159 | The loop stops after exactly `Survival` months with the balance of that month: months ≤ 1200, and below 1200 the balance is ≤ 0. A principal ≤ 0 gives 0 months. |
| `Depletion.NoPrincipalNoMonths` | script.js:150-155 | A principal that is not positive lasts 0 months. |
| `Depletion.InterestCoversBalance` | script.js:155-158 | Take a positive principal and a non-negative rate, with the month's interest on the principal covering the withdrawal. Then the balance never falls below the principal and never decreases. |
| `Depletion.InterestCoversRunsToCap` | script.js:152-158 | In that case, which includes no withdrawal with a rate ≥ 0, the loop runs to the 1200-month cap. |
| `Depletion.BalanceMonotone` | script.js:156-157 | With rate ≥ -1 per month, a larger principal and a smaller withdrawal give a balance at least as large in every month. |
| `Depletion.SurvivalMonotone` | script.js:155-159 | With a monthly rate ≥ -1 (fdRate ≥ -1200), raising the principal or lowering the withdrawal never shortens how long the FD lasts. Below that rate a larger balance can turn into a more negative one, and the claim does not hold. |
| `Duration.ReadoutIndefinite` | script.js:165-177 | "Indefinite", and "Interest covers monthly withdrawal", are shown exactly when months ≥ 1200. |
| `Duration.ReadoutHeadline` | script.js:169-171 | Below the cap the headline splits into the month count, which reads back exactly, and "Months". |
| `Duration.ReadoutZero` | script.js:168-177 | 0 months shows "0 Months" over a bare "~ ". |
| `Duration.TimePartsReadBack` | script.js:169-176 | Each breakdown part shown is non-zero. The years part appears exactly when months / 12 > 0, and the months part exactly when months % 12 > 0. The parts add back up to years·12 + remMonths = months. |
| `Allocation.Allocate` | script.js:143-144 | The two halves are equal and sum to the capital. |
| `Allocation.NoGainNoTax` | script.js:188-190 | When gross ≤ principal the tax is 0 whatever the rate, and net = gross. |
| `Allocation.NetAfterGain` | script.js:188-190 | After a gain, net = principal + gains·(1 - taxRate/100). With 0 ≤ taxRate ≤ 100, principal ≤ net ≤ gross. |
| `Allocation.NetMonotone` | script.js:188-190 | With 0 ≤ taxRate ≤ 100, a larger gross value never gives a smaller net value. |
| `Calculator.Round` | script.js:198 | `Math.round` gives the whole number within half of `x`, rounding halves up. |
| `Calculator.HelperWords` | script.js:139-140 | The helper words are empty when the amount's whole part is not positive (including amounts between 0 and 1). Otherwise they are non-empty, carry no space at either end, and their space-separated words are exactly the reference spelling of the whole part. |
| `Calculator.HelperWordsReadBack` | script.js:139-140 | The helper words under a positive amount below 10^10 read back as its whole part. |
| `Calculator.Calculate` | script.js:130-199 | One recalculation gives the helper words, the equal split, the `Survival` month count of the FD half with its read-out, the gross value over `months / 12` years, the tax only on positive gains, the net value, and the words of the rounded net value. |
| `Calculator.ProjectionFacts` | script.js:143-190 | For the FD half of a capital: "Indefinite" exactly at the cap; below it the balance ran out; a capital ≤ 0 gives 0 months; a Nifty fund with no gain keeps its gross value. |

## Left out

- DOM reads and writes, event wiring (`init`, `setupInputFormatting`) and the unused cursor-position code. These are page glue, so `calculate` is modelled on already-parsed numbers.
- `formatNumberInput`, `parseFormattedNumber`, and the `parseFloat(...) || 0` defaults. Their behaviour is that of `parseFloat`, `isNaN` and `toLocaleString('en-IN')`, which are not part of this model.
- Currency formatting with `toLocaleString` (INR style). This is presentation only.
- `copySummary`. It only does clipboard I/O and raises an `alert`.
- `Math.pow`. Real exponentiation with a fractional exponent is a parameter `pow` of `Calculator.Calculate`. Nothing is assumed about it.
- IEEE-754 doubles. Balances, rates and amounts are exact reals. The model does not claim bit-exact agreement with the browser, and it does not model NaN or infinities. In particular, the `isNaN(number)` branch of `getNumberToWords`, which returns "Zero", is not modelled.
- Amounts at or above 2^53. There JavaScript's floor and division lose precision. The model uses exact integers.
- `Text.Trim`: models `trim` on spaces only. The renderer never produces any other whitespace.
