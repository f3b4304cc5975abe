# Tendenci events: registration pricing and display helpers

A Dafny model of the computed parts of Tendenci's events module
(`apps/events/models.py`):

- **Registration configuration** (`RegistrationConfigurations`). A class with
  the configuration's mutable fields: three tier prices in integer cents,
  three boundary dates, the capacity `limit`, the `enabled` flag and the
  owning event as an `Option`. The constructor builds the tier table
  `periods`, but only when an event is attached. The table holds three
  closed intervals: early is [early date, regular date], regular is
  [regular date, late date] and late is [late date, event start]. The
  queries are `Available`, `PriceFromPeriod`, `WithinTime`, `Price` and
  `IsOpen`. The two loops of the source, `within_time` and `price`, are
  methods with loop invariants. They are proved against the functions
  `InAnyPeriod` and `CurrentPrice` / `LastMatch`.
- **Registrant display name** (`Registrants`), computed from the
  registrant's `name` field. `Tokens` is Python's `unicode.split()`. `LastnameFirstname` picks the first and last name by
  token position and formats them as "last, first".
- **Place city/state** (`Places`). `CityState` keeps whichever of city and
  state are non-empty, in that order.

The current time is the parameter `now`; timestamps are integers. Python 2
dictionaries have no fixed iteration order. So every query that walks the
tier table takes the order as a parameter `order`, which may be any
permutation of the table's names (`IsIterationOrder`). Where two tiers
share a boundary instant, the model proves only that the price is one of
the two tiers' prices.

The model follows the code on points that are easy to misread:

- The late tier ends at the event's start date, not its end date.
- All three intervals are closed at both ends.
- The tie-break at a shared boundary depends on the dictionary's order, not
  on a fixed early/regular/late order.
- With no event attached, the table is `None`. `within_time`, `price`,
  `price_from_period` and `is_open` then fail in the source; they do not
  report "closed, price zero". The model therefore requires a table for
  them. `is_open` builds its list `[enabled, within_time]` eagerly, so it
  needs the table even when registration is switched off.

## Model

| member | source | states |
|---|---|---|
| `Places.NonEmpty` | apps/events/models.py:85 | the result of `[s for s in xs if s]` holds no empty string, is no longer than the input, and holds exactly the input's non-empty strings |
| `Places.NonEmptyAppend` | apps/events/models.py:85 | filtering a concatenation is the concatenation of the filtered parts; with `NonEmptySingle` this fixes the order and the number of occurrences of the kept strings |
| `Places.NonEmptySingle` | apps/events/models.py:85 | a single string is kept exactly when it is non-empty |
| `Places.CityState` | apps/events/models.py:84-85 | the result is `[city]` if the city is non-empty, followed by `[state]` if the state is non-empty; so at most two elements, none of them empty, city first |
| `Registrants.Tokens` | apps/events/models.py:124 | every token of `name.split()` is non-empty and holds no whitespace |
| `Registrants.TokensOfInterleave` | apps/events/models.py:124 | whitespace-free words separated by any non-empty whitespace, with any whitespace before and after, split back into exactly those words |
| `Registrants.GapsFitTokens` | apps/events/models.py:124 | the whitespace gaps of any string are whitespace only, one more than its tokens, and non-empty between two tokens |
| `Registrants.TokensShape` | apps/events/models.py:124 | every string is its tokens interleaved with its whitespace gaps |
| `Registrants.TokensCharacterised` | apps/events/models.py:124 | a list is the split of a string exactly when it is a list of whitespace-free words that, with suitable whitespace gaps, spells the string: the tokens are the maximal runs of non-whitespace characters |
| `Registrants.TokensKeepContent` | apps/events/models.py:124 | the tokens run together are exactly the name's non-whitespace characters, in order |
| `Registrants.TokensOfJoinWords` | apps/events/models.py:124 | splitting words joined by single spaces gives back the same words (round trip) |
| `Registrants.LastnameFirstname` | apps/events/models.py:122-143 | the result is `None` exactly when the name is the empty string |
| `Registrants.BlankNameShownAsIs` | apps/events/models.py:137-143 | a non-empty name made of whitespace only has no tokens and is returned as it is |
| `Registrants.LastnameFirstnameByCount` | apps/events/models.py:124-143 | by token count: 1 gives `t0`; 2 gives `t1, t0`; 3 or 4 give `t2, t0`; 5 gives `t3, t1`; more than 5 give the whole name; 0 gives the whole name, or `None` if it is empty |
| `Registrants.FirstLastShownLastFirst` | apps/events/models.py:133-141 | a name typed as `first last` is shown as `last, first` |
| `Registrants.FullNameShownLastFirst` | apps/events/models.py:127-141 | a name typed as `prefix first middle last suffix` is shown as `last, first` |
| `RegistrationConfigurations.BuildPeriods` | apps/events/models.py:268-276 | there is a table exactly when an event is attached; it names exactly the three tiers, with early [early, regular], regular [regular, late] and late [late, event start] |
| `RegistrationConfigurations.RegistrationConfiguration.constructor` | apps/events/models.py:265-276 | the fields hold the given values and `periods` is the table built from the dates and the event |
| `RegistrationConfigurations.RegistrationConfiguration.Available` | apps/events/models.py:278-286 | false when not enabled; false when an event is attached and `now` is after its end; true otherwise; the tier dates are not read |
| `RegistrationConfigurations.RegistrationConfiguration.PriceFromPeriod` | apps/events/models.py:297-301 | `early`, `regular` and `late` give the early, regular and late price; every other name gives `None` |
| `RegistrationConfigurations.RegistrationConfiguration.WithinTime` | apps/events/models.py:311-316 | for every iteration order, the result is true exactly when some period of the table contains `now` (both ends inclusive) |
| `RegistrationConfigurations.WithinTimeIntervals` | apps/events/models.py:270-274 | for a built table, some period contains `now` exactly when `now` is in [early, regular], [regular, late] or [late, event start] |
| `RegistrationConfigurations.RegistrationConfiguration.IsOpen` | apps/events/models.py:303-309 | true exactly when registration is enabled and some period contains `now`; so it is false for every `now` when not enabled |
| `RegistrationConfigurations.LastMatch` | apps/events/models.py:290-293 | the tier found is in the order, its period contains `now`, and no later tier in the order contains it; there is none exactly when no visited period contains `now` |
| `RegistrationConfigurations.RegistrationConfiguration.Price` | apps/events/models.py:288-295 | the loop returns 0 when no period matches, else the price of the last matching tier in the iteration order |
| `RegistrationConfigurations.PriceZeroOrContainingTier` | apps/events/models.py:288-295 | the price is 0 when no period contains `now`, else the price of some tier whose period contains `now`; with all tier prices non-zero, it is 0 exactly when no period contains `now` |
| `RegistrationConfigurations.PriceIgnoresEnabled` | apps/events/models.py:288-301 | two configurations with the same tier table and tier prices quote the same price, whatever their `enabled` flags and dates |
| `RegistrationConfigurations.LastMatchUnique` | apps/events/models.py:290-293 | when exactly one period contains `now`, the iteration order does not matter: that tier is the one found |
| `RegistrationConfigurations.PriceByTier` | apps/events/models.py:270-295 | with early < regular < late < event start: an instant inside one tier only is priced at that tier for every order; at the regular or the late date the price is one of the two adjacent tiers' prices; outside [early, event start] it is 0 |

`ExampleQuote` is a client method. It constructs a configuration with
prices 10.00, 20.00 and 30.00, and checks the quotes the contracts give:
open at 10.00 inside the early tier, one of 10.00 or 20.00 at the regular
date, and closed with price 0 after the event.

## Left out

- The clock: the source calls `datetime.now()` again at every loop step. The model uses one `now` for the whole query.
- Money: `DecimalField` prices become integer cents. The source starts `price` at the float `0.00`, and the model uses the integer 0, so a tier price of 0 and "no tier" give the same result in both.
- Timestamps: `DateTimeField` values become integers. Time zones and naive/aware comparisons are not modelled.
- Field edits after construction: the fields are mutable, and nothing in the modelled core changes them. The tier table is a snapshot made at construction; if the dates change later it goes stale. The model keeps that: the queries read `periods`, not the dates.
- `limit`: it is stored but no modelled query reads it.
- `Registration.save_invoice`: an invoice lookup, creation and save through the ORM and the clock. The lookup uses the type tag `calendarevents` but a new invoice gets `event_registration`, so repeated calls do not find the invoice they created. This is persistence and is not modelled.
- `Registrant.hash` and `hash_url`, `get_absolute_url` and the other permalinks: MD5 from a foreign library, and URL routing.
- `Type.save` (calls `slugify`, unseen library code), the `#`-prefixed colour properties and the `__unicode__` methods: formatting only. `Place.__unicode__` only joins `CityState` with other fields.
- `Event.dt_display`: delegates to `format_datetime_range`, which is not part of this model.
- `is_registrant`, `event_registrants` and `Registration.registrant`: ORM queries.
- Field declarations, managers, `Meta` permissions and foreign keys: schema only.
- `tendenci/addons/resumes/signals.py`: one framework signal registration, with no logic.
- RegistrationConfigurations.RegistrationConfiguration.WithinTime: requires a tier table. With no event attached the source iterates `None` and raises `TypeError`; that error path is not modelled.
- RegistrationConfigurations.RegistrationConfiguration.Price: requires a tier table, for the same reason: the source raises `TypeError` iterating `None`.
- RegistrationConfigurations.RegistrationConfiguration.PriceFromPeriod: requires a tier table. The source's `period in None` raises `TypeError`; that error path is not modelled.
- RegistrationConfigurations.RegistrationConfiguration.IsOpen: requires a tier table even when registration is switched off. The source builds `[enabled, within_time]` eagerly and so raises `TypeError` without an event; that error path is not modelled.
- Whitespace: `IsSpace` covers the whitespace of Python 2.7's `unicode.split()`. A byte-string name (`str`) would split on ASCII whitespace only.
