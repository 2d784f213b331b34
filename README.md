# Lottery planner: projection engine and header policy

This project models two parts of a lottery-winnings planner.

The **projection engine** (`src/lib/lottery-logic.ts`) compares two ways of taking the winnings: a taxed lump sum, or an annuity whose payments grow by 5% a year. It does four things:
- It builds the starting record from the setup inputs. The lump balance is `m * (1 - lst/100)`. The first annuity payment is chosen so that the growing payments add up to `m * (1 - at/100)`.
- It rolls both balances forward to a new date. Each balance is compounded daily and only a positive gain is taxed. The annuity balance is credited every payment whose anniversary falls after the last update and on or before the new date. The day's spending is then taken from each balance.
- It solves in closed form for the constant daily withdrawal that brings a principal to a target balance on the predicted date of death.
- It builds the daily, weekly, biweekly and monthly withdrawal table, in nominal dollars and in today's dollars. For the annuity scenario, the principal is the cash balance plus the present value of the payments still to come.
- It also chooses a display form for money amounts: `M`, `K` or plain.

The **edge middleware** (`src/middleware.ts`) sets the response headers of every page request.
- A request counts as an authorised iframe request when its `Referer` starts with one of eight listed origins.
- That decision fixes the CSP `frame-ancestors` sources and `X-Frame-Options`.
- The CSP text has its white space collapsed and is then trimmed.
- Three fixed security headers are always set.
- Iframe-detection headers are added only for an authorised request.

Modules:
- `Wrappers`: `Option` and `Result`.
- `RealPow`: integer powers and geometric sums over `real`.
- `Dates`: days as integers and an abstract calendar.
- `LotteryLogic`: the engine.
- `JsString`: `startsWith`, `includes`, `join`, the `\s` class, `trim` and the `/\s+/g` collapse, as JavaScript defines them.
- `EdgeMiddleware`: the header policy. A `ResponseHeaders` class holds the header map that `set` changes in place.

The imperative parts are methods with loops proved against specification functions:
- `CalculateUpdate` runs the year loop. It is tied to `Credited`, the sum over payment indices, and `CreditYearsCoverWindow` proves that the two agree.
- `PresentValueOfFuturePayments` runs the payment loop. It is tied to `FuturePaymentsValue`.
- `ResponseHeaders.SetEach` is the `forEach` over the security headers. It is tied to `SetAll`.
- `Middleware` reassigns `frameAncestors`. Its result is tied to the header map `PolicyHeaders`, about which the policy lemmas are stated.

Facts about the code that the model keeps:
- `calculateUpdate` takes the spending off both balances with no clamping at zero (src/lib/lottery-logic.ts:100-101). A negative balance keeps compounding, so the debt deepens (`GrowthDeepensDebt`).
- The state type declares a `years_passed` field (src/lib/types.ts:35), but `calculateUpdate` never writes it, so the model's `State` has no such field.
- The growth rate is the constant 1.05 (src/lib/lottery-logic.ts:28-29), so the base-payment formula needs no branch for a growth rate of one.
- The real value of a withdrawal is the nominal value divided once by the inflation factor of the whole remaining horizon (src/lib/lottery-logic.ts:181).
- `formatMoney` has an `M` form from 10,000,000 and a `K` form from 100,000, and no other suffix (src/lib/lottery-logic.ts:198-205).

## Model

| member | source | states |
|---|---|---|
| LotteryLogic.CalculateInitialData | src/lib/lottery-logic.ts:3-51 | The inputs are echoed and the growth rate is 1.05. The lump balance is `m(1-lst/100)`. The base payment times `sum_{k<mal} 1.05^k` equals `m(1-at/100)`. The annual balance is the base payment. The last-update and initial dates are the given date. The death date lies `dd - yo` years on, and after today when `dd > yo`. |
| LotteryLogic.BasePayment | src/lib/lottery-logic.ts:27-29 | The growing-annuity formula's first payment, times the geometric sum of `mal` growth factors, is exactly the net installment pool. |
| LotteryLogic.BasePaymentNonNegative | src/lib/lottery-logic.ts:27-29 | A non-negative pool gives a non-negative first payment. |
| LotteryLogic.DeathDateAfterToday | src/lib/lottery-logic.ts:18-20 | Moving today's date a positive number of years on gives a strictly later day. |
| RealPow.GeometricSumClosedForm | src/lib/lottery-logic.ts:29 | The geometric-series identity behind the base payment: `(x-1) * sum_{k<n} x^k == x^n - 1`. |
| LotteryLogic.DailyRateNonNegative | src/lib/lottery-logic.ts:68-69 | A non-negative APR gives a non-negative effective daily rate. |
| LotteryLogic.IsDailyRateOf | src/lib/lottery-logic.ts:68-69 | Definition: `d` is the effective daily rate of the APR when `1 + d > 0` and `(1 + d)^365 == (1 + apr/1200)^12`, the integer-power form of the source's `(1 + s/1200)^(12/365) - 1` (the same rate is used at lines 146-147). |
| LotteryLogic.IsDailyInflationOf | src/lib/lottery-logic.ts:150-151 | Definition: `d` is the daily inflation rate when `1 + d > 0` and `(1 + d)^365 == 1 + rate/100`. |
| LotteryLogic.GrowBalance | src/lib/lottery-logic.ts:73-78 | A balance becomes `old + (gross - old)(1 - tax)` when the gross grown balance exceeds it, and the gross balance otherwise, so a loss is never taxed. |
| LotteryLogic.NoElapsedDaysNoGrowth | src/lib/lottery-logic.ts:73-78 | Zero elapsed days leave a balance unchanged. |
| LotteryLogic.GrowthKeepsPrincipal | src/lib/lottery-logic.ts:73-78 | A non-negative balance at a non-negative rate, with tax in [0, 1], never shrinks. |
| LotteryLogic.GrowthDeepensDebt | src/lib/lottery-logic.ts:73-78 | A negative balance at a positive rate becomes more negative. |
| LotteryLogic.UntaxedGrowthComposes | src/lib/lottery-logic.ts:73-78 | Without tax, growing over `n1` days and then over `n2` days equals growing over `n1 + n2` days. |
| LotteryLogic.Payment | src/lib/lottery-logic.ts:93 | Definition: payment `k` is the base payment times the growth rate to the power `k`, as credited at line 93 and discounted at line 169. |
| LotteryLogic.PaymentDate | src/lib/lottery-logic.ts:86-87 | Definition: payment `k` falls on the anniversary of the initial date in the year `k` years after it, as built at lines 86-87 and 165-166. |
| LotteryLogic.UpdatedData | src/lib/lottery-logic.ts:53-111 | The updated record keeps the initial parameters and carries the new date; its balances are the grown balances, the annual one credited, each less the spending. |
| LotteryLogic.CalculateUpdate | src/lib/lottery-logic.ts:53-111 | A date before the last update yields exactly the error with the source's message. Otherwise the result is `UpdatedData`: the initial parameters are unchanged and the last-update date is the new date. The lump balance is the grown lump balance minus the spending. The annual balance is the grown annual balance plus `Credited` over the window (last update, new date], minus the spending; the year loop is proved to add exactly `Credited`. |
| LotteryLogic.CreditYearsCoverWindow | src/lib/lottery-logic.ts:84-97 | Summing over the years from the last update's year to the new date's year, as the loop does, gives exactly the payments `0 < k < mal` whose anniversary lies in the window. |
| LotteryLogic.ConsecutiveUpdatesCreditOnce | src/lib/lottery-logic.ts:84-97 | The payments credited over (a, b] and over (b, c] together are exactly those credited over (a, c]: none is missed and none is counted twice. |
| LotteryLogic.NothingCreditedInEmptyWindow | src/lib/lottery-logic.ts:84-97 | An update to the last update's own date credits nothing. |
| LotteryLogic.CreditSumNonNegative | src/lib/lottery-logic.ts:91-95 | Non-negative payments give a non-negative credit. |
| LotteryLogic.IdleUpdateChangesNothing | src/lib/lottery-logic.ts:53-111 | An update to the last update's own date with zero spending returns the record unchanged. |
| LotteryLogic.UpdateWithoutSpendingNeverDecreases | src/lib/lottery-logic.ts:53-111 | With zero spending, a non-negative APR, tax in [0, 100]% and non-negative balances and payments, neither balance decreases. |
| LotteryLogic.SpendingComesOffBoth | src/lib/lottery-logic.ts:99-101 | The spending is taken in full from each scenario: each balance is exactly the spending below the same update without spending. |
| LotteryLogic.BalanceAfterWithdrawalsClosedForm | src/lib/lottery-logic.ts:113-132 | The recurrence `B0 = P, B(k+1) = B(k) q - W` has `B(n) = P q^n - W sum_{k<n} q^k`. |
| LotteryLogic.WithdrawalsCoverShortfall | src/lib/lottery-logic.ts:130 | The closed-form withdrawal, accumulated with growth over `n` periods, equals `P R - T`. |
| LotteryLogic.ClosedFormLandsOnTarget | src/lib/lottery-logic.ts:130 | Withdrawing the closed-form amount every period takes the balance from `P` exactly to `T` after `n` periods. |
| LotteryLogic.ClampedMeansTargetOutOfReach | src/lib/lottery-logic.ts:130-131 | When the formula is not positive and the growth factor is above zero, even withdrawing nothing leaves at most `T`. |
| LotteryLogic.SustainableDailyWithdrawal | src/lib/lottery-logic.ts:113-132 | It returns 0 for `n <= 0`, and the unclamped `(P - T)/n` when `(1 + r_net)^n` is within 1e-9 of 1. Otherwise the result is non-negative. A positive result makes the recurrence land exactly on `T`. A zero result means even no withdrawal cannot exceed `T`. With no net growth, the result lands on `T`. |
| LotteryLogic.NoGrowthShareLandsOnTarget | src/lib/lottery-logic.ts:126-127 | Without growth, the even share `(P - T)/n` lands exactly on `T`. |
| LotteryLogic.WithdrawalMonotoneInPrincipal | src/lib/lottery-logic.ts:113-132 | For a growth factor above zero, a larger principal never gives a smaller sustainable withdrawal. |
| LotteryLogic.ClosedFormMonotone | src/lib/lottery-logic.ts:130 | The closed-form withdrawal is monotone in the principal. |
| LotteryLogic.PresentValueOfFuturePayments | src/lib/lottery-logic.ts:161-173 | The loop sums, over indices `i < mal`, each payment whose anniversary is strictly after `now`, discounted over the days until it is paid. |
| LotteryLogic.FuturePaymentsNonNegative | src/lib/lottery-logic.ts:164-173 | Non-negative payments have a non-negative present value, so the annuity principal is at least its cash balance. |
| LotteryLogic.NoFuturePaymentsAfterLastAnniversary | src/lib/lottery-logic.ts:164-173 | Once the last anniversary is past, nothing is added to the annuity principal. |
| LotteryLogic.InflationAdjustedTarget | src/lib/lottery-logic.ts:153-154 | With non-negative inflation, the target in future dollars is at least the legacy goal in today's dollars. |
| LotteryLogic.GetLimits | src/lib/lottery-logic.ts:180-188 | Weekly, biweekly and monthly are the daily amount times 7, 14 and 30.44. Every real value times the inflation factor is its nominal value. For a factor of at least 1, the daily real value lies between 0 and the nominal value. |
| LotteryLogic.CalculateWithdrawalLimits | src/lib/lottery-logic.ts:134-196 | With no days remaining the result is `None`. Otherwise it is the table of both scenarios: the lump one from the lump balance, the annuity one from the cash balance plus `FuturePaymentsValue`. It also carries the years remaining and the inflation-adjusted target. |
| LotteryLogic.AnnuityWithdrawalAtLeastCashOnly | src/lib/lottery-logic.ts:157-176 | The annuity scenario's withdrawal is at least what its cash balance alone would sustain. |
| LotteryLogic.FormatMoney | src/lib/lottery-logic.ts:198-206 | The form is `M` iff value >= 10,000,000, `K` iff 100,000 <= value < 10,000,000, and plain iff value < 100,000. The shown figure times the suffix's unit is the value. The decimals are 2, 1 and 2. |
| JsString.Includes | src/middleware.ts:33 | `includes` is true iff the substring occurs at some index. |
| JsString.StartsWith | src/middleware.ts:26 | Definition: `startsWith` holds when the prefix is no longer than the text and equals the text's first characters. |
| JsString.Join | src/middleware.ts:34 | Definition: `join` of no element is empty, of one is that element, and otherwise the first element, the separator and the join of the rest. |
| JsString.JoinWithSpacesAvoids | src/middleware.ts:32-34 | Joining with single spaces creates no occurrence of a space-free substring that no element contains. |
| JsString.CollapseSpaces | src/middleware.ts:51 | After `replace(/\s+/g, ' ')` the white space is plain single spaces, none adjacent. The result starts with white space iff the input does. The characters other than white space are unchanged and in order. |
| JsString.CollapseIdempotent | src/middleware.ts:51 | Collapsing twice is the same as collapsing once. |
| JsString.CollapseRun | src/middleware.ts:51 | Each maximal run of white space becomes exactly one space: a non-empty run between a part that does not end with white space and one that does not start with it collapses to `" "`, and both parts collapse on their own. |
| JsString.CollapseNormalisedPrefix | src/middleware.ts:51 | A normalised leading part passes through the collapse unchanged and the rest collapses on its own. |
| JsString.Trim | src/middleware.ts:51 | `trim` removes exactly the white space at both ends and leaves the rest as a slice of the input. |
| JsString.CollapseThenTrimNormalises | src/middleware.ts:51 | Collapse-then-trim has no white space at either end and no run of two white space characters, and it keeps every other character in order. |
| JsString.OccurrenceSurvivesTrim | src/middleware.ts:51 | An occurrence that starts and ends with a character other than white space is still present after `trim`. |
| EdgeMiddleware.SomeStartsWith | src/middleware.ts:25-27 | `some(startsWith)` is true iff the text starts with one of the prefixes. |
| EdgeMiddleware.IsAuthorizedIframe | src/middleware.ts:25-27 | The request is authorised iff a referrer is present and starts with one of the eight listed origins. |
| EdgeMiddleware.LookalikeHostIsAuthorized | src/middleware.ts:13-27 | The test is on a textual prefix: any referrer made of an authorised origin followed by any text is authorised, so a host that merely begins with an authorised host, such as `http://localhost:3000.evil.example`, is authorised too. |
| EdgeMiddleware.NonLocalhost | src/middleware.ts:32-33 | The filter keeps exactly the origins that do not contain `localhost`. |
| EdgeMiddleware.PortfolioOriginsAvoidLocalhost | src/middleware.ts:14-15 | Neither portfolio origin contains `localhost`. |
| EdgeMiddleware.LocalOriginsIncludeLocalhost | src/middleware.ts:16-21 | Each of the six development origins contains `localhost`. |
| EdgeMiddleware.PublicOrigins | src/middleware.ts:13-33 | Filtering the eight origins leaves exactly the two portfolio origins, in order. |
| EdgeMiddleware.FrameAncestors | src/middleware.ts:30-36 | The value is exactly `'self'` when unauthorised. When authorised it is `'self'`, a space and the filtered origins joined by single spaces. Neither form contains `localhost`. |
| EdgeMiddleware.AuthorizedFrameAncestors | src/middleware.ts:30-36 | When authorised the value is `'self' https://carter-portfolio.fyi https://www.carter-portfolio.fyi`. |
| EdgeMiddleware.FrameAncestorsNormalised | src/middleware.ts:30-36 | Both forms of the `frame-ancestors` sources are normalised: no white space at the ends, only single plain spaces inside. |
| EdgeMiddleware.CspTemplate | src/middleware.ts:41-50 | Definition: the template text with its line breaks and indentation, and the sources placed after `frame-ancestors ` and before `;`. |
| EdgeMiddleware.CollapsedTemplate | src/middleware.ts:41-51 | Collapsing the template keeps `frame-ancestors`, one space, normalised sources unchanged and `;` together. |
| EdgeMiddleware.ContentSecurityPolicy | src/middleware.ts:41-51 | The CSP value is normalised and keeps the template's other characters in order. |
| EdgeMiddleware.CspNamesFrameAncestors | src/middleware.ts:41-51 | For normalised sources, the CSP value contains `frame-ancestors `, the sources unchanged and `;`. |
| EdgeMiddleware.CspCarriesFrameAncestors | src/middleware.ts:30-51 | Every response's CSP header contains the directive `frame-ancestors ` followed by exactly the sources that the referrer selects, then `;`. |
| EdgeMiddleware.FrameOptions | src/middleware.ts:54 | Definition: `SAMEORIGIN` for an authorised request, `DENY` otherwise. |
| EdgeMiddleware.SecurityHeaders | src/middleware.ts:39-60 | Definition: the five security headers in the order of the object literal, with the CSP and `X-Frame-Options` values passed in and the three fixed values. |
| EdgeMiddleware.IsPortfolioEmbed | src/middleware.ts:73-74 | Definition: the referrer contains `carter-portfolio.fyi` or the `embed` query value is `portfolio`. |
| EdgeMiddleware.PolicyHeaders | src/middleware.ts:4-81 | Definition: the header map after the security headers are set in order and, for an authorised request only, the iframe headers; the lemmas below state its properties. |
| EdgeMiddleware.ResponseHeaders.constructor | src/middleware.ts:6 | A new response has no headers. |
| EdgeMiddleware.ResponseHeaders.Set | src/middleware.ts:64 | `set` adds or replaces exactly one header. |
| EdgeMiddleware.ResponseHeaders.SetEach | src/middleware.ts:63-65 | Setting the pairs in turn leaves the map `SetAll` describes, where a later pair overrides an earlier one. |
| EdgeMiddleware.SetAllKeys | src/middleware.ts:63-65 | Setting pairs adds exactly their names. |
| EdgeMiddleware.SetAllValue | src/middleware.ts:63-65 | A pair that no later pair overrides leaves its value. |
| EdgeMiddleware.Middleware | src/middleware.ts:4-81 | The response's headers are exactly `PolicyHeaders(referrer, embed)`. |
| EdgeMiddleware.SecurityHeaderValues | src/middleware.ts:39-65 | The `forEach` over the security headers sets exactly the five names, each with its value. |
| EdgeMiddleware.SecurityHeadersSet | src/middleware.ts:39-65 | Every response carries the CSP built from `FrameAncestors`, the `X-Frame-Options` value, and the three fixed headers with their fixed values. |
| EdgeMiddleware.FrameOptionsFollowReferrer | src/middleware.ts:54 | `X-Frame-Options` is `SAMEORIGIN` iff the referrer starts with an authorised origin, and `DENY` otherwise. |
| EdgeMiddleware.CspIsNormalised | src/middleware.ts:41-51 | The CSP header has no white space at either end and no run of two white space characters. |
| EdgeMiddleware.IframeHeaderValues | src/middleware.ts:68-78 | The iframe headers add their names and change no security header. |
| EdgeMiddleware.IframeHeadersOnlyWhenAuthorized | src/middleware.ts:68-70 | `X-Iframe-Allowed` and `X-Iframe-Referrer` are present iff the request is authorised. Their values are `true` and the referrer. |
| EdgeMiddleware.PortfolioEmbedHeader | src/middleware.ts:72-77 | `X-Portfolio-Embed` is present iff the request is authorised and either the referrer contains `carter-portfolio.fyi` or `embed` is `portfolio`. Its value is `true`. |
| EdgeMiddleware.EmbedParameterAloneIsIgnored | src/middleware.ts:72-77 | `embed=portfolio` without an authorised referrer never sets `X-Portfolio-Embed`. |
| EdgeMiddleware.HeaderNames | src/middleware.ts:39-78 | An unauthorised request gets exactly the five security headers. An authorised one also gets the two iframe headers, and the portfolio header when it applies. |

## Left out

- Floating point: amounts are exact reals. IEEE rounding is not modelled, nor are the digits printed by `toFixed` and `toLocaleString`. `FormatMoney` models only the choice of form, the scaled figure and the number of decimals.
- Non-integer exponents: the daily rate `(1 + s/1200)^(12/365) - 1` and the daily inflation rate `(1 + i/100)^(1/365) - 1` are parameters. `IsDailyRateOf` and `IsDailyInflationOf` characterise them by integer powers. `CalculateUpdate` and `CalculateWithdrawalLimits` take them as given and do not check them.
- Dates and the clock: a date is a day number. `getFullYear` and `setFullYear` are the two functions of a `Calendar`, with the Gregorian properties they rely on stated in `ValidFor`. Time zones, leap-day rollover and the time of day are not modelled. The `Math.round` of millisecond differences becomes an exact difference of day numbers. The ambient `new Date()` of `calculateWithdrawalLimits` becomes the parameter `now`.
- ISO date strings: `formatDate` and `toISOString` are identities on day numbers.
- CalculateInitialData requires `mal >= 1`. That is the form's lower bound; for `mal = 0` the source divides by zero.
- CalculateUpdate: throwing becomes a `Failure` carrying the source's message.
- The field names follow the engine (`m`, `lst`, `at`, `mal`, `s`, ...), not `src/lib/types.ts`, which is not part of this model.
- Middleware: `NextRequest`, `NextResponse` and the route `config` matcher are not modelled. The request is its `Referer` header and its `embed` query value, and the response is its header map.
- Middleware: header names are compared exactly, not case-insensitively as the `Headers` object does. All names set are distinct under either comparison.
- Middleware: the `user-agent` header is read but never used, so it is not modelled.
- EdgeMiddleware.ContentSecurityPolicy: the contract does not give the full CSP text. It states that the text is normalised and that its other characters equal the template's; `CspNamesFrameAncestors` and `CspCarriesFrameAncestors` prove that the `frame-ancestors` directive carries exactly the chosen sources.
- The React UI, `localStorage` persistence, the CSV/JSON export, the iframe message handling and the service-worker prompt are outside this model.
