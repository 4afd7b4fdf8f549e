TestResult.DisplayName,TestResult.Outcome,TestResult.Duration,TestResult.ResourceCount,RandomSeed
ApiLivros.SavedBookFoundById (correctness),Failed,00:00:00.8983058,2072839,4
ApiLivros.SavedBookFoundById (well-formedness),Passed,00:00:00.1838150,75742,4
