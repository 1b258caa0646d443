/** Value types of the user-management page: the user record, the form
    inputs, the drawer mode, and the inputs and outputs that stand for the
    remote collection service and the notification sink. */
module Records {

  /** A user record as the remote collection holds it; `id` is assigned by
      the server and never edited locally. */
  datatype User = User(id: int, name: string, email: string, phone: string)

  /** The three editable fields of the user form. */
  datatype UserFormInputs = UserFormInputs(name: string, email: string, phone: string)

  /** What `reset()` leaves in the form: no default values, so every field empty. */
  const EmptyDraft := UserFormInputs("", "", "")

  datatype DrawerMode = Create | Edit

  datatype Option<T> = None | Some(value: T)

  /** The outcome of one awaited remote call: the response body, or a
      rejected promise (transport error or non-2xx status, not told apart). */
  datatype Response<T> = Success(value: T) | Failure

  /** The request a handler sends to the remote collection, if any. */
  datatype Request =
    | NoRequest
    | GetUsers
    | PostUser(body: UserFormInputs)
    | PutUser(id: int, body: UserFormInputs)
    | DeleteUser(id: int)

  /** The notification a handler emits, if any. */
  datatype Toast = Silent | ToastSuccess(message: string) | ToastError(message: string)

  const LoadedMessage := "Users loaded successfully!"
  const FetchFailedMessage := "Failed to fetch users."
  const CreatedMessage := "User created successfully!"
  const UpdatedMessage := "User updated successfully!"
  const SaveFailedMessage := "Failed to save user."
  const DeletedMessage := "User deleted successfully!"
  const DeleteFailedMessage := "Failed to delete user."
}
