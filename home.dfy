/** The `Home` page component's state and the handlers that change it.
    Each handler runs as one atomic step: the answer of the remote call it
    awaits and the user's answer to the confirmation prompt are parameters,
    and it returns the request it sent and the notification it showed. */
module HomePage {
  import opened Records
  import opened UserList
  import opened FormRules

  class Home {
    var users: seq<User>
    var loading: bool
    var isDrawerOpen: bool
    var drawerMode: DrawerMode
    var currentUser: Option<User>
    /** The form's current field values (react-hook-form's store). */
    var draft: UserFormInputs

    /** Only an open drawer has a target record. */
    ghost predicate Consistent()
      reads this
    {
      !isDrawerOpen ==> currentUser == None
    }

    /** The initial `useState` values; the form starts empty. */
    constructor ()
      ensures users == [] && !loading && !isDrawerOpen
      ensures drawerMode == Create && currentUser == None && draft == EmptyDraft
      ensures Consistent()
    {
      users := [];
      loading := false;
      isDrawerOpen := false;
      drawerMode := Create;
      currentUser := None;
      draft := EmptyDraft;
    }

    /** The mount-time fetch: set `loading`, await the list, replace `users`
        wholesale on success, clear `loading` either way. `loadingWhileAwaiting`
        is the flag as it stands while the request is outstanding. */
    method FetchUsers(reply: Response<seq<User>>) returns (sent: Request, toast: Toast, ghost loadingWhileAwaiting: bool)
      modifies this`users, this`loading
      ensures sent == GetUsers && loadingWhileAwaiting && !loading
      ensures reply.Success? ==> users == reply.value && toast == ToastSuccess(LoadedMessage)
      ensures reply.Failure? ==> users == old(users) && toast == ToastError(FetchFailedMessage)
    {
      loading := true;
      sent := GetUsers;
      loadingWhileAwaiting := loading;
      if reply.Success? {
        users := reply.value;
        toast := ToastSuccess(LoadedMessage);
      } else {
        toast := ToastError(FetchFailedMessage);
      }
      loading := false;
    }

    /** Opens the drawer in `mode`. In edit mode with a user it targets that
        user; the form is filled from the user and then `reset()`, so it
        ends empty in both modes. Create mode keeps whatever target there was. */
    method OpenDrawer(mode: DrawerMode, user: Option<User>)
      modifies this`drawerMode, this`currentUser, this`draft, this`isDrawerOpen
      ensures drawerMode == mode && isDrawerOpen
      ensures currentUser == if mode == Edit && user.Some? then user else old(currentUser)
      ensures draft == EmptyDraft
      ensures Consistent()
    {
      drawerMode := mode;
      if mode == Edit && user.Some? {
        currentUser := user;
        draft := draft.(name := user.value.name);
        draft := draft.(email := user.value.email);
        draft := draft.(phone := user.value.phone);
        draft := EmptyDraft;
      } else {
        draft := EmptyDraft;
      }
      isDrawerOpen := true;
    }

    /** Closes the drawer and drops the target; the mode is left as it was.
        On an already closed drawer it changes nothing. */
    method CloseDrawer()
      modifies this`isDrawerOpen, this`currentUser
      ensures !isDrawerOpen && currentUser == None
      ensures old(!isDrawerOpen && currentUser == None) ==> unchanged(this)
      ensures Consistent()
    {
      isDrawerOpen := false;
      currentUser := None;
    }

    /** The user typing into the form's inputs. */
    method FillForm(values: UserFormInputs)
      modifies this`draft
      ensures draft == values
    {
      draft := values;
    }

    /** What one run of `onSubmit(data)` leaves behind, given the POST and
        PUT answers: exactly one request chosen by the mode and target, the
        list changed only by a successful call, the drawer closed, and ids
        kept unique when the created record's id is new. */
    twostate predicate Submitted(data: UserFormInputs, created: Response<User>, acked: Response<()>, sent: Request, toast: Toast)
      reads this
    {
      && !isDrawerOpen && currentUser == None
      && (old(drawerMode) == Create ==>
            && sent == PostUser(data)
            && users == (if created.Success? then Append(old(users), created.value) else old(users))
            && toast == (if created.Success? then ToastSuccess(CreatedMessage) else ToastError(SaveFailedMessage)))
      && (old(drawerMode) == Edit && old(currentUser).Some? ==>
            && sent == PutUser(old(currentUser).value.id, data)
            && users == (if acked.Success? then UpdateById(old(users), old(currentUser).value.id, data) else old(users))
            && toast == (if acked.Success? then ToastSuccess(UpdatedMessage) else ToastError(SaveFailedMessage)))
      && (old(drawerMode) == Edit && old(currentUser).None? ==>
            sent == NoRequest && users == old(users) && toast == Silent)
      && ((old(UniqueIds(users)) && (old(drawerMode) == Create && created.Success? ==> !old(HasId(users, created.value.id))))
            ==> UniqueIds(users))
    }

    /** `onSubmit`: create or update, then always close the drawer. */
    method OnSubmit(data: UserFormInputs, created: Response<User>, acked: Response<()>) returns (sent: Request, toast: Toast)
      modifies this`users, this`isDrawerOpen, this`currentUser
      ensures Submitted(data, created, acked, sent, toast)
      ensures Consistent()
    {
      sent, toast := NoRequest, Silent;
      if drawerMode == Create {
        sent := PostUser(data);
        if created.Success? {
          AppendKeepsUnique(users, created.value);
          users := Append(users, created.value);
          toast := ToastSuccess(CreatedMessage);
        } else {
          toast := ToastError(SaveFailedMessage);
        }
      } else if currentUser.Some? {
        var target := currentUser.value;
        sent := PutUser(target.id, data);
        if acked.Success? {
          UpdateByIdKeepsIds(users, target.id, data);
          users := UpdateById(users, target.id, data);
          toast := ToastSuccess(UpdatedMessage);
        } else {
          toast := ToastError(SaveFailedMessage);
        }
      }
      CloseDrawer();
    }

    /** `handleSubmit(onSubmit)`: a draft that breaks a rule is held back
        with nothing sent and nothing changed (the drawer stays open);
        a valid draft is handed to `onSubmit`. */
    method HandleSubmit(created: Response<User>, acked: Response<()>) returns (sent: Request, toast: Toast)
      modifies this`users, this`isDrawerOpen, this`currentUser
      ensures FieldErrors(draft) != {} ==> sent == NoRequest && toast == Silent && unchanged(this)
      ensures FieldErrors(draft) == {} ==> Submitted(draft, created, acked, sent, toast)
      ensures old(Consistent()) ==> Consistent()
    {
      if FieldErrors(draft) != {} {
        sent, toast := NoRequest, Silent;
      } else {
        sent, toast := OnSubmit(draft, created, acked);
      }
    }

    /** `handleDelete`: nothing at all unless confirmed; then one DELETE,
        and on success the record with the id is filtered out. */
    method HandleDelete(userId: int, confirmed: bool, acked: Response<()>) returns (sent: Request, toast: Toast)
      modifies this`users
      ensures !confirmed ==> sent == NoRequest && toast == Silent && users == old(users)
      ensures confirmed ==> sent == DeleteUser(userId)
      ensures confirmed && acked.Success? ==> users == RemoveById(old(users), userId) && toast == ToastSuccess(DeletedMessage)
      ensures confirmed && acked.Failure? ==> users == old(users) && toast == ToastError(DeleteFailedMessage)
      ensures old(UniqueIds(users)) ==> UniqueIds(users)
      ensures confirmed && acked.Success? && old(UniqueIds(users)) && old(HasId(users, userId)) ==>
                |users| == |old(users)| - 1
    {
      sent, toast := NoRequest, Silent;
      if confirmed {
        sent := DeleteUser(userId);
        if acked.Success? {
          if UniqueIds(users) {
            RemoveByIdKeepsUnique(users, userId);
            if HasId(users, userId) {
              var k :| 0 <= k < |users| && users[k].id == userId;
              RemoveByIdUnique(users, userId, k);
            }
          }
          users := RemoveById(users, userId);
          toast := ToastSuccess(DeletedMessage);
        } else {
          toast := ToastError(DeleteFailedMessage);
        }
      }
    }
  }

  /** The design's scenarios, told through the handlers' contracts alone. */
  method DesignScenarios() {
    var home := new Home();
    var ann := User(1, "Ann", "a@x.com", "1");
    var sent, toast, loadingWhileAwaiting := home.FetchUsers(Success([ann]));
    assert loadingWhileAwaiting && !home.loading && home.users == [ann];

    // A two-letter name is held back by the minimum-length rule.
    home.OpenDrawer(Create, None);
    home.FillForm(UserFormInputs("Bo", "b@x.com", "2"));
    sent, toast := home.HandleSubmit(Success(User(2, "Bo", "b@x.com", "2")), Failure);
    assert sent == NoRequest && home.users == [ann] && home.isDrawerOpen;

    var bob := User(2, "Bob", "b@x.com", "2");
    home.FillForm(UserFormInputs("Bob", "b@x.com", "2"));
    sent, toast := home.HandleSubmit(Success(bob), Failure);
    assert sent == PostUser(UserFormInputs("Bob", "b@x.com", "2"));
    assert home.users == [ann, bob] && !home.isDrawerOpen;

    // Editing opens with an empty form, which alone would be rejected.
    home.OpenDrawer(Edit, Some(ann));
    EmptyDraftRejected();
    assert home.currentUser == Some(ann) && FieldErrors(home.draft) != {};
    var edited := UserFormInputs("Ann2", "a@x.com", "1");
    home.FillForm(edited);
    sent, toast := home.HandleSubmit(Failure, Success(()));
    assert sent == PutUser(1, edited);
    UpdateByIdAt([ann, bob], 1, edited);
    var ann2 := User(1, "Ann2", "a@x.com", "1");
    assert home.users == [ann2, bob];

    // A declined delete sends nothing; a confirmed one removes the record.
    sent, toast := home.HandleDelete(1, false, Success(()));
    assert sent == NoRequest && home.users == [ann2, bob];
    sent, toast := home.HandleDelete(1, true, Success(()));
    RemoveByIdUnique([ann2, bob], 1, 0);
    assert home.users == [bob];
  }
}
