# Clicker backend: rank recalculation and serializer checks, in Dafny

This project models two parts of the ClickerApp backend (users, levels and
tasks of a clicker game).

**Rank recalculation** (`test_dj.py`). `calculate_user_ranks` takes a list of
users that is already ordered, best first, and relabels it in place:

1. The first three users get the top labels `Легенда`, `Элита` and `Мастер`, in that order.
2. The users from index 3 on are split over nine ordered sub-tiers, `gold 3` down to `bronze 1`.
3. Every sub-tier gets `T // 9` users, where `T` is the number of remaining users, and each of the first `T % 9` sub-tiers gets one more.
4. A final pass gives `bronze 1` to anything left over.

The model keeps the source's form:

- The list is an `array` of user records.
- `assign_rank_to_users`, `distribute_remaining_users` and `calculate_user_ranks` are methods with loops over that array.
- Each method is proved against a specification function. `RankAt(n, i)` gives the label of user `i` in a list of `n` users.
- The group arithmetic (module `Buckets`) is proved separately. A closed-form `GroupOf` locates an offset directly from the quotient and remainder, and it is proved to agree with the running index that the loop accumulates (`GroupStart`).

**Serializer checks** (`backend/*/serializers.py`):

- The field validators of users, levels and tasks, and the cross-field checks, are functions returning a `Result`. An error stands for the source's `ValidationError`, with one exception: `Users.RankChoicesMissing` stands for the `AttributeError` that `validate_rank` raises as written (see Findings). The framework does not turn that into a field error, so `is_valid()` ends in an uncaught exception, a server error rather than a validation failure.
- Each `update` is modelled as a `class` (the model instance) plus a method that runs the `setattr` loop over the validated data. It is specified by a fold, `Apply`. The lemma `ApplyField` states that exactly the named fields change.
- Lookups in storage are parameters: the set of existing ids, level numbers, usernames or emails.

Behaviours of the code that the model keeps:

- **Short lists.** With fewer than three users, `T` is negative. Python's floor `//` and `%` agree with Dafny's `/` and `%` for the positive divisor 9. The counts come out as 0 or -1, nothing is written past the top slots, and `distribute_remaining_users` still returns the list length.
- **Return value past the end.** `assign_rank_to_users` returns `start + count` even when that is past the end of the list.
- **Ordering is assumed.** Nothing sorts the users, and nothing resets `energy`.
- **Top labels are display names.** The three top labels are the display names from `RANK_CHOICES`, not its keys. `Ranks.LabelsAgainstRankKeys` proves that they are not rank keys, while the nine sub-tiers are.
- **`id` is writable in the user update.** `UserUpdateSerializer.Meta` assigns `read_only_fields` twice. The second assignment, `("last_update",)`, is the one that holds, so `id` is writable there.
- **The name `User` is rebound.** In `backend/users/serializers.py`, line 126 rebinds the module-global name `User` to the authentication model. The id and inviter checks of the first two serializers therefore consult that model's accounts. The model passes the existing ids in as a set, so it covers either table. `validate_rank` fails outright, because that model has no `RANK_CHOICES` (see Findings). The model uses the intended rank check.

## Model

| member | source | states |
|---|---|---|
| Ranks.AssignRankToUsers | test_dj.py:17-22 | returns start + count even past the end of the list; gives the rank to exactly the existing users in [start, start + count); changes no other user and no other field |
| Ranks.DistributeRemainingUsers | test_dj.py:24-36 | returns the list length for every start (the group counts sum to length - start, also when negative); every user from start on gets the group that the closed-form GroupOf assigns to its offset; users before start are untouched |
| Ranks.CalculateUserRanks | test_dj.py:38-62 | every user gets RankAt(n, i) and keeps its other fields; an empty list is returned empty; the catch-all pass changes nothing |
| Ranks.TopLabelsOnlyAtTop | test_dj.py:45-47 | a top label sits at index i exactly when i < 3, and index i < min(3, n) holds the i-th top label |
| Ranks.TopLabelsUnique | test_dj.py:45-47 | two different users never share a top label |
| Ranks.SubTierMonotone | test_dj.py:50-57 | a later user never gets a higher sub-tier than an earlier one |
| Ranks.SubTierShare | test_dj.py:28-34 | sub-tier k labels exactly the users in one contiguous run, which starts where the higher sub-tiers' runs end and ends where the next one starts (both directions) |
| Ranks.SubTierUsed | test_dj.py:28-34 | sub-tier k labels some user exactly when its group count is positive, so with few users the lowest sub-tiers go unused |
| Ranks.TwelveUsersOnePerSubTier | test_dj.py:50-57 | with 12 users, each of the nine sub-tiers labels exactly one user, highest first |
| Ranks.FourUsersFourthIsGold3 | test_dj.py:50-57 | with 4 users the fourth gets gold 3 |
| Ranks.LabelsAgainstRankKeys | test_dj.py:45-54 | the sub-tier and catch-all labels are RANK_CHOICES keys; the three top labels are not |
| Buckets.GroupSize | test_dj.py:28-32 | the count handed to a group is never negative when T >= 0 and never positive when T < 0, so short lists get nothing written past the top slots |
| Buckets.GroupStart | test_dj.py:31-33 | the running index, relative to the start, never moves back past the start when T >= 0 and never forward past it when T < 0 |
| Buckets.GroupOf | test_dj.py:28-34 | a closed form, from quotient and remainder, for the group an offset falls into; it lies below the group count and between that group's start and the next group's start |
| Buckets.GroupStartClosed | test_dj.py:31-34 | the running index after k groups is k * (T // g) + min(k, T % g) |
| Buckets.GroupStartTotal | test_dj.py:28-36 | the group counts add up to exactly T, also when T is negative |
| Buckets.GroupSizesBalanced | test_dj.py:28-34 | two groups differ by at most one user, an earlier group never gets fewer users than a later one, and a group gets the extra user exactly when it is among the first T % g |
| Buckets.GroupStartMonotone | test_dj.py:31-34 | the running index only moves forwards when T >= 0, and only backwards when T < 0 |
| Buckets.GroupStartBetween | test_dj.py:31-36 | every intermediate index lies between the start and the end of the walk |
| Buckets.GroupOfExactly | test_dj.py:31-33 | an offset is in group k exactly when it lies between group k's start and group k + 1's start (both directions) |
| Buckets.GroupOfMonotone | test_dj.py:31-33 | a later offset never falls into an earlier group |
| Users.ValidateId | backend/users/serializers.py:51-56 | accepts exactly ids >= 1 that no stored user has, and returns them unchanged; the positivity error comes first |
| Users.ValidateLevel | backend/users/serializers.py:58-61 | accepts exactly levels >= 1, unchanged |
| Users.ValidateInvitedBy | backend/users/serializers.py:70-77 | rejects negatives, always accepts 0, and accepts a positive inviter exactly when that user exists |
| Users.ValidateEnergy | backend/users/serializers.py:79-82 | accepts exactly energies >= 0, unchanged |
| Users.ValidateRank | backend/users/models.py:5-18 | the intended rank check: accepts exactly the RANK_CHOICES keys, unchanged |
| Users.ValidateRankAsWritten | backend/users/serializers.py:84-88 | as written, fails for every value (RANK_CHOICES missing on the rebound User) |
| Users.RankCheckAsWrittenRejectsValidRank | backend/users/serializers.py:126 | the rank check as written rejects the valid key gold 3, which the intended check accepts |
| Users.ValidateUpdate | backend/users/serializers.py:110-117 | passes exactly when the data names no inviter, names 0, or names an existing user; the data is returned unchanged |
| Users.InviterStaysKnown | backend/users/serializers.py:110-123 | after a validated update, a user whose inviter was nobody or a stored user still has such an inviter |
| Users.Update | backend/users/serializers.py:119-123 | the instance's new attributes are the old ones with every validated item set in order; the same instance is returned |
| Users.User.SetAttr | backend/users/serializers.py:121 | the instance's new attributes are the old ones with exactly that item's field set |
| Users.With | backend/users/serializers.py:120-121 | one setattr changes that item's field only |
| Users.ApplyField | backend/users/serializers.py:119-123 | after the update, a field named in the data holds the (last) given value and every other field is unchanged |
| Users.ValidateAdmin | backend/users/serializers.py:147-161 | password mismatch, then a taken username, then a taken email, with the first failure reported (each as an iff); on success the attrs are returned unchanged |
| Levels.ValidatePositive | backend/levels/serializers.py:57-81 | click power, capacity, regeneration and experience each accept exactly values >= 1, unchanged |
| Levels.ValidateLevel | backend/levels/serializers.py:47-55 | accepts exactly level numbers >= 1 not yet stored; the positivity error comes first |
| Levels.Validate | backend/levels/serializers.py:83-97 | rejects exactly when both regeneration and capacity are given, both non-zero, and regeneration > capacity; a missing field skips the check; on success the data is returned unchanged |
| Levels.Update | backend/levels/serializers.py:203-218 | the instance's new attributes are the old ones with every validated item set in order; the same instance is returned |
| Levels.PartialUpdate | backend/levels/serializers.py:220-225 | behaves exactly as Update |
| Levels.Level.SetAttr | backend/levels/serializers.py:216 | the instance's new attributes are the old ones with exactly that item's field set |
| Levels.With | backend/levels/serializers.py:215-216 | one setattr changes that item's field only |
| Levels.ApplyField | backend/levels/serializers.py:215-217 | after the update, a field named in the data holds the (last) given value and every other field is unchanged |
| Levels.ReadOnlyLevelKept | backend/levels/serializers.py:132 | data without the read-only level key leaves the level number unchanged |
| Levels.PartialUpdateBreaksWellFormed | backend/levels/serializers.py:90-96 | a well-formed level updated with only a regeneration of 200 against capacity 100 passes validate and ends with regeneration > capacity |
| Levels.ValidateAgainst | backend/levels/serializers.py:83-97 | the corrected check: passes exactly when the merged regeneration (submitted, else stored) is at most the merged capacity |
| Levels.ValidateAgainstKeepsWellFormed | backend/levels/serializers.py:83-97 | with positive items and the corrected check, an update keeps a well-formed level well-formed |
| Levels.ValidateAgainstAgrees | backend/levels/serializers.py:90-96 | when both positive values are given, the corrected check and the check as written agree |
| Tasks.ValidateTitle | backend/tasks/serializers.py:41-44 | accepts exactly titles with a character that is not whitespace, and returns them as given, not stripped |
| Tasks.TrimStart | backend/tasks/serializers.py:42 | lstrip returns a suffix that starts with non-whitespace, and drops only whitespace |
| Tasks.TrimEnd | backend/tasks/serializers.py:42 | rstrip returns a prefix that ends with non-whitespace, and drops only whitespace |
| Tasks.Strip | backend/tasks/serializers.py:42 | strip() returns the run of the title left between a whitespace-only head and a whitespace-only tail, and that run neither starts nor ends with whitespace |
| Tasks.StripEmptyIffBlank | backend/tasks/serializers.py:42 | strip() gives the empty string exactly when every character is whitespace |
| Tasks.ValidateReward | backend/tasks/serializers.py:46-49 | accepts exactly rewards >= 0, unchanged |
| Tasks.Update | backend/tasks/serializers.py:67-71 | the instance's new attributes are the old ones with every validated item set in order; the same instance is returned |
| Tasks.Task.SetAttr | backend/tasks/serializers.py:69 | the instance's new attributes are the old ones with exactly that item's field set |
| Tasks.With | backend/tasks/serializers.py:69-70 | one setattr changes that item's field only |
| Tasks.ApplyField | backend/tasks/serializers.py:67-71 | after the update, a field named in the data holds the (last) given value and every other field is unchanged |
| Tasks.ReadOnlyIdKept | backend/tasks/serializers.py:59 | data without the read-only id key leaves the task id unchanged |

## Left out

- Sorting and the energy reset. The rank code neither sorts the users nor resets `energy`, so the model assumes the input order and leaves energy alone.
- Aliasing in the user list. Each user is a record in an array. The case where one user object appears twice in the list, and a later write shows through an earlier slot, is not modelled.
- Persistence. `save()` after each update, the storage lookups behind the existence checks (they are parameters), and `create` are not modelled.
- The `last_update` timestamp. It is refreshed on save from the clock, so it is not a field of the user record.
- Validated data as a dict. It is modelled as a sequence of (attribute, value) items in insertion order. Should a key occur twice, the last value wins, as it would in the setattr loop.
- Framework-enforced constraints. `max_length`, `min_value`, `required` and the choice check on `rank` are enforced by the framework, not by the serializer methods, so they are not modelled. `Levels.ValidateAgainstKeepsWellFormed` assumes the items passed their field checks.
- Users.ValidateId / UserRecord.id: the app model stores ids as two-place decimals (`DecimalField(decimal_places=2)`); they are modelled as `int`, following `validate_id`'s `int` annotation, so a fractional id such as 1.5 is not expressible. The set of stored ids that `validate_id` and `validate_invited_by` consult is modelled as a set of integers for the same reason.
- `validate_stars`. Stars are a float field, and only copying them is modelled (as an exact `real`).
- Duplicate validators. The validators that LevelUpdateSerializer duplicates from LevelSerializer (backend/levels/serializers.py:161-201) are modelled once.
- Out of scope. The HTTP views, cache-invalidation signals, the scheduled job stub, the admin classes, settings and URL wiring, and the ORM wrapper helpers have no logic of the kinds modelled here.
- The sample data and print loop at the top and bottom of `test_dj.py`. They are not behaviour.

## Findings

| source | as written | input that shows it | evidently intended | confidence | as-written member | corrected member |
|---|---|---|---|---|---|---|
| backend/users/serializers.py:84-88 | `User` is rebound at line 126 to the authentication model, which has no RANK_CHOICES, so validate_rank raises for every value | rank "gold 3" | accept exactly the RANK_CHOICES keys of the app's user model | high, not executed | Users.ValidateRankAsWritten | Users.ValidateRank |
| backend/levels/serializers.py:90-96 | the regeneration/capacity check only looks at the submitted data, so a partial update carrying only click_regeneration is never compared with the stored capacity | stored capacity 100, regeneration 1; partial update with click_regeneration 200 | a stored level never has regeneration above capacity | medium, not executed | Levels.PartialUpdateBreaksWellFormed | Levels.ValidateAgainst |
